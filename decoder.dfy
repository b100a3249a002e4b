/** The decoder: a reader over the input bytes and the decoder's own `pos` counter, decoding one
    step at a time. Every method is proved to do what the matching function of `DecoderSpec` says. */
module Decoding {
  import opened Errors
  import opened Binary
  import opened Markers
  import BoolHeaders
  import opened Headers
  import opened Values
  import opened DecoderSpec

  class Decoder {
    /** The bytes the reader yields, in order. */
    const input: seq<bv8>
    const ctx: Context
    /** How far the reader has got into `input`. */
    var index: nat
    /** The decoder's byte offset, used for error positions. */
    var pos: nat

    ghost predicate Valid()
      reads this
    {
      index <= |input| && WellBehaved(ctx.others)
    }

    function At(): Cursor
      reads this
    {
      Cursor(index, pos)
    }

    /** `from_reader`: a decoder at the start of the reader, with `pos` zero. */
    constructor FromReader(reader: seq<bv8>, ctx: Context)
      requires WellBehaved(ctx.others)
      ensures Valid() && input == reader && this.ctx == ctx && At() == Cursor(0, 0)
    {
      input := reader;
      this.ctx := ctx;
      index := 0;
      pos := 0;
    }

    // -------------------------------------------------------------------------------------------
    // Reader access

    /** `peek_byte`: looks at the next byte and changes nothing. */
    method PeekByte() returns (r: Result<bv8>)
      requires Valid()
      ensures r == PeekByteAt(input, At())
    {
      if index < |input| {
        r := Ok(input[index]);
      } else {
        r := Err(EndOfFile());
      }
    }

    /** `peek_marker`: the kind the next tag byte carries; changes nothing. */
    method PeekMarker() returns (r: Result<Marker>)
      requires Valid()
      ensures r.Ok? <==> index < |input|
      ensures r.Ok? ==> r.value == Detect(input[index])
      ensures r.Err? ==> r.error == EndOfFile()
    {
      var byte := PeekByte();
      if byte.Err? {
        return Err(byte.error);
      }
      r := Ok(Detect(byte.value));
    }

    /** `pull_byte`. */
    method PullByte() returns (r: Result<bv8>)
      requires Valid()
      modifies this
      ensures Valid() && Outcome(r, At()) == PullByteAt(input, old(At()))
    {
      if index == |input| {
        return Err(EndOfFile());
      }
      r := Ok(input[index]);
      index := index + 1;
      pos := pos + 1;
    }

    /** `pull_byte_expecting`. */
    method PullByteExpecting(marker: Marker) returns (r: Result<bv8>)
      requires Valid()
      modifies this
      ensures Valid() && Outcome(r, At()) == PullByteExpectingAt(input, old(At()), marker)
    {
      var start := pos;
      var byte := PullByte();
      if byte.Err? {
        return byte;
      }
      if !Validate(marker, byte.value) {
        return Err(Error(InvalidType, Some(start)));
      }
      r := byte;
    }

    /** `pull_bytes_into`: fills `buf[from..]` with the next bytes of the input, in place, leaving
        `buf[..from]` as it was. */
    method PullBytesInto(buf: array<bv8>, from: nat) returns (r: Result<()>)
      requires Valid() && from <= buf.Length
      modifies this, buf
      ensures Valid()
      ensures var o := PullBytesAt(input, old(At()), buf.Length - from);
        && At() == o.after
        && (r.Ok? <==> o.result.Ok?)
        && (r.Ok? ==> buf[from..] == o.result.value && buf[..from] == old(buf[..from]))
        && (r.Err? ==> r.error == o.result.error)
    {
      var len := buf.Length - from;
      if index + len > |input| {
        return Err(EndOfFile());
      }
      forall i | from <= i < buf.Length {
        buf[i] := input[index + (i - from)];
      }
      index := index + len;
      pos := pos + len;
      r := Ok(());
    }

    /** `pull_bytes`. */
    method PullBytes(len: nat) returns (r: Result<seq<bv8>>)
      requires Valid()
      modifies this
      ensures Valid() && Outcome(r, At()) == PullBytesAt(input, old(At()), len)
    {
      if index + len > |input| {
        return Err(EndOfFile());
      }
      r := Ok(input[index..index + len]);
      index := index + len;
      pos := pos + len;
    }

    /** `pull_len_bytes`: reads the field into the low end of a zeroed 8-byte buffer and reads that
        as a big-endian 64-bit number before narrowing it to `usize`. */
    method PullLenBytes(width: nat) returns (r: Result<nat>)
      requires Valid() && width <= 8
      modifies this
      ensures Valid() && Outcome(r, At()) == PullLenBytesAt(ctx, input, old(At()), width)
    {
      var start := pos;
      var padded := new bv8[8](_ => 0);
      var pulled := PullBytesInto(padded, 8 - width);
      if pulled.Err? {
        return Err(pulled.error);
      }
      assert padded[..] == Zeros(8 - width) + padded[8 - width..];
      BigEndianZeroPadding(8 - width, padded[8 - width..]);
      var value := BigEndian(padded[..]);
      if value < Limit(ctx.usizeWidth) {
        r := Ok(value);
      } else {
        r := Err(Error(NumberOutOfRange, Some(start)));
      }
    }

    // -------------------------------------------------------------------------------------------
    // Headers

    /** `decode_header`. */
    method DecodeHeader() returns (r: Result<Header>)
      requires Valid()
      modifies this
      ensures Valid() && Outcome(r, At()) == HeaderAt(ctx, input, old(At()))
      ensures r.Ok? ==> old(index) < index
    {
      var marker := PeekMarker();
      if marker.Err? {
        return Err(marker.error);
      }
      match marker.value
      case Bytes =>
        var header := DecodeBytesHeader();
        match header {
        case Ok(h) => r := Ok(FromBytesHeader(h));
        case Err(e) => r := Err(e);
        }
      case Seq =>
        var header := DecodeSeqHeader();
        match header {
        case Ok(h) => r := Ok(FromSeqHeader(h));
        case Err(e) => r := Err(e);
        }
      case Bool =>
        var header := DecodeBoolHeader();
        match header {
        case Ok(h) => r := Ok(FromBoolHeader(h));
        case Err(e) => r := Err(e);
        }
      case _ =>
        var o := ctx.others.header(marker.value, input, At());
        index, pos := o.after.index, o.after.pos;
        r := o.result;
    }

    /** `decode_bytes_header`. */
    method DecodeBytesHeader() returns (r: Result<BytesHeader>)
      requires Valid()
      modifies this
      ensures Valid() && Outcome(r, At()) == BytesHeaderAt(ctx, input, old(At()))
    {
      var byte := PullByteExpecting(Marker.Bytes);
      if byte.Err? {
        return Err(byte.error);
      }
      var lenWidthExponent := byte.value & LEN_WIDTH_EXPONENT_BITS;
      var lenWidth: bv8 := 1 << lenWidthExponent;
      assert lenWidth as nat == BytesLenWidth(byte.value);
      var len := PullLenBytes(lenWidth as nat);
      if len.Err? {
        return Err(len.error);
      }
      r := Ok(BytesForLen(len.value));
    }

    /** `decode_seq_header`. */
    method DecodeSeqHeader() returns (r: Result<SeqHeader>)
      requires Valid()
      modifies this
      ensures Valid() && Outcome(r, At()) == SeqHeaderAt(ctx, input, old(At()))
    {
      var byte := PullByteExpecting(Marker.Seq);
      if byte.Err? {
        return Err(byte.error);
      }
      if byte.value & COMPACT_VARIANT_BIT != 0 {
        return Ok(Compact((byte.value & COMPACT_LEN_BITS) as nat));
      }
      var lenWidth := 1 + (byte.value & EXTENDED_LEN_WIDTH_BITS);
      var len := PullLenBytes(lenWidth as nat);
      if len.Err? {
        return Err(len.error);
      }
      r := Ok(Extended(len.value));
    }

    /** Decoding a boolean header: the inverse of the boolean encoder. */
    method DecodeBoolHeader() returns (r: Result<BoolHeaders.BoolHeader>)
      requires Valid()
      modifies this
      ensures Valid() && Outcome(r, At()) == BoolHeaderAt(input, old(At()))
    {
      var byte := PullByteExpecting(Marker.Bool);
      if byte.Err? {
        return Err(byte.error);
      }
      r := Ok(BoolHeaders.New(byte.value & BoolHeaders.VALUE_BIT != 0));
    }

    // -------------------------------------------------------------------------------------------
    // Values

    /** `decode_value`. */
    method DecodeValue() returns (r: Result<Value>)
      requires Valid()
      modifies this
      ensures Valid() && Outcome(r, At()) == ValueAt(ctx, input, old(At()))
      decreases |input| - index, 0
    {
      var header := DecodeHeader();
      if header.Err? {
        return Err(header.error);
      }
      r := DecodeValueOf(header.value);
    }

    /** `decode_value_of`. */
    method DecodeValueOf(header: Header) returns (r: Result<Value>)
      requires Valid()
      modifies this
      ensures Valid() && Outcome(r, At()) == ValueOfAt(ctx, input, old(At()), header)
      decreases |input| - index, 3
    {
      match header
      case Bytes(h) =>
        var bytes := DecodeBytesValueOf(h);
        match bytes {
        case Ok(v) => r := Ok(Value.Bytes(v));
        case Err(e) => r := Err(e);
        }
      case Seq(h) =>
        var items := DecodeSeqValueOf(h);
        match items {
        case Ok(v) => r := Ok(Value.Seq(v));
        case Err(e) => r := Err(e);
        }
      case Bool(h) =>
        var b := DecodeBoolValueOf(h);
        match b {
        case Ok(v) => r := Ok(Value.Bool(v));
        case Err(e) => r := Err(e);
        }
      case _ =>
        var o := ctx.others.valueOf(header, input, At());
        index, pos := o.after.index, o.after.pos;
        r := o.result;
    }

    /** `skip_value`. */
    method SkipValue() returns (r: Result<()>)
      requires Valid()
      modifies this
      ensures Valid() && Outcome(r, At()) == SkipAt(ctx, input, old(At()))
      decreases |input| - index, 0
    {
      var header := DecodeHeader();
      if header.Err? {
        return Err(header.error);
      }
      r := SkipValueOf(header.value);
    }

    /** `skip_value_of`. */
    method SkipValueOf(header: Header) returns (r: Result<()>)
      requires Valid()
      modifies this
      ensures Valid() && Outcome(r, At()) == SkipOfAt(ctx, input, old(At()), header)
      decreases |input| - index, 2
    {
      match header
      case Bytes(h) => r := SkipBytesValueOf(h);
      case Seq(h) => r := SkipSeqValueOf(h);
      case Bool(h) => r := SkipBoolValueOf(h);
      case _ =>
        var o := ctx.others.skipOf(header, input, At());
        index, pos := o.after.index, o.after.pos;
        r := o.result;
    }

    // -------------------------------------------------------------------------------------------
    // Byte arrays

    /** `decode_bytes_of`: exactly `header.len` bytes. */
    method DecodeBytesOf(header: BytesHeader) returns (r: Result<seq<bv8>>)
      requires Valid()
      modifies this
      ensures Valid() && Outcome(r, At()) == PullBytesAt(input, old(At()), header.len)
      ensures r.Ok? ==> |r.value| == header.len
    {
      r := PullBytes(header.len);
    }

    /** `decode_bytes_buf_of`: the same bytes, copied into a buffer of their own. */
    method DecodeBytesBufOf(header: BytesHeader) returns (r: Result<seq<bv8>>)
      requires Valid()
      modifies this
      ensures Valid() && Outcome(r, At()) == PullBytesAt(input, old(At()), header.len)
    {
      var buf: seq<bv8> := [];
      var bytes := DecodeBytesOf(header);
      if bytes.Err? {
        return Err(bytes.error);
      }
      buf := buf + bytes.value;
      assert buf == bytes.value;
      r := Ok(buf);
    }

    /** `decode_bytes_value_of`. */
    method DecodeBytesValueOf(header: BytesHeader) returns (r: Result<BytesValue>)
      requires Valid()
      modifies this
      ensures Valid()
      ensures var o := ValueOfAt(ctx, input, old(At()), FromBytesHeader(header));
        && At() == o.after
        && (r.Ok? <==> o.result.Ok?)
        && (r.Ok? ==> o.result.value == Value.Bytes(r.value) && |r.value.bytes| == header.len)
        && (r.Err? ==> r.error == o.result.error)
    {
      var bytes := DecodeBytesBufOf(header);
      if bytes.Err? {
        return Err(bytes.error);
      }
      r := Ok(BytesValue(bytes.value));
    }

    /** `skip_bytes_value_of`: the reader skips the bytes; `pos` is left where it was. */
    method SkipBytesValueOf(header: BytesHeader) returns (r: Result<()>)
      requires Valid()
      modifies this
      ensures Valid() && Outcome(r, At()) == ReaderSkipAt(input, old(At()), header.len)
      ensures pos == old(pos)
    {
      if index + header.len > |input| {
        return Err(EndOfFile());
      }
      index := index + header.len;
      r := Ok(());
    }

    /** `decode_bytes`. */
    method DecodeBytes() returns (r: Result<seq<bv8>>)
      requires Valid()
      modifies this
      ensures Valid() && Outcome(r, At()) == BytesAt(ctx, input, old(At()))
    {
      var header := DecodeBytesHeader();
      if header.Err? {
        return Err(header.error);
      }
      r := DecodeBytesOf(header.value);
    }

    /** `decode_bytes_buf`. */
    method DecodeBytesBuf() returns (r: Result<seq<bv8>>)
      requires Valid()
      modifies this
      ensures Valid() && Outcome(r, At()) == BytesAt(ctx, input, old(At()))
    {
      var header := DecodeBytesHeader();
      if header.Err? {
        return Err(header.error);
      }
      r := DecodeBytesBufOf(header.value);
    }

    /** `decode_bytes_value`. */
    method DecodeBytesValue() returns (r: Result<BytesValue>)
      requires Valid()
      modifies this
      ensures Valid()
      ensures var o := BytesAt(ctx, input, old(At()));
        && At() == o.after
        && (r.Ok? <==> o.result.Ok?)
        && (r.Ok? ==> r.value == BytesValue(o.result.value))
        && (r.Err? ==> r.error == o.result.error)
    {
      var header := DecodeBytesHeader();
      if header.Err? {
        return Err(header.error);
      }
      r := DecodeBytesValueOf(header.value);
    }

    // -------------------------------------------------------------------------------------------
    // Sequences

    /** `decode_seq_of`: `header.len` values, decoded in order. */
    method DecodeSeqOf(header: SeqHeader) returns (r: Result<seq<Value>>)
      requires Valid()
      modifies this
      ensures Valid() && Outcome(r, At()) == SeqItemsAt(ctx, input, old(At()), header.len)
      ensures r.Ok? ==> |r.value| == header.len
      decreases |input| - index, 1
    {
      ghost var start := At();
      var len := header.len;
      var items: seq<Value> := [];
      PrependNothing(SeqItemsAt(ctx, input, start, len));
      for i := 0 to len
        invariant Valid() && start.index <= index
        invariant |items| == i
        invariant SeqItemsAt(ctx, input, start, len) == Prepend(items, SeqItemsAt(ctx, input, At(), len - i))
      {
        ghost var before := At();
        var item := DecodeValue();
        if item.Err? {
          return Err(item.error);
        }
        PrependTwice(items, [item.value], SeqItemsAt(ctx, input, At(), len - i - 1));
        items := items + [item.value];
      }
      assert items + [] == items;
      r := Ok(items);
    }

    /** `decode_seq_value_of`. */
    method DecodeSeqValueOf(header: SeqHeader) returns (r: Result<SeqValue>)
      requires Valid()
      modifies this
      ensures Valid()
      ensures var o := ValueOfAt(ctx, input, old(At()), FromSeqHeader(header));
        && At() == o.after
        && (r.Ok? <==> o.result.Ok?)
        && (r.Ok? ==> o.result.value == Value.Seq(r.value) && |r.value.items| == header.len)
        && (r.Err? ==> r.error == o.result.error)
      decreases |input| - index, 2
    {
      var items := DecodeSeqOf(header);
      if items.Err? {
        return Err(items.error);
      }
      r := Ok(SeqValue(items.value));
    }

    /** `skip_seq_value_of`: skips `header.len` values, one after the other. */
    method SkipSeqValueOf(header: SeqHeader) returns (r: Result<()>)
      requires Valid()
      modifies this
      ensures Valid() && Outcome(r, At()) == SkipItemsAt(ctx, input, old(At()), header.len)
      decreases |input| - index, 1
    {
      ghost var start := At();
      var len := header.len;
      for i := 0 to len
        invariant Valid() && start.index <= index
        invariant SkipItemsAt(ctx, input, start, len) == SkipItemsAt(ctx, input, At(), len - i)
      {
        var skipped := SkipValue();
        if skipped.Err? {
          return Err(skipped.error);
        }
      }
      r := Ok(());
    }

    /** `decode_seq`. */
    method DecodeSeq() returns (r: Result<seq<Value>>)
      requires Valid()
      modifies this
      ensures Valid() && Outcome(r, At()) == SeqAt(ctx, input, old(At()))
    {
      var header := DecodeSeqHeader();
      if header.Err? {
        return Err(header.error);
      }
      r := DecodeSeqOf(header.value);
    }

    /** `decode_seq_value`. */
    method DecodeSeqValue() returns (r: Result<SeqValue>)
      requires Valid()
      modifies this
      ensures Valid()
      ensures var o := SeqAt(ctx, input, old(At()));
        && At() == o.after
        && (r.Ok? <==> o.result.Ok?)
        && (r.Ok? ==> r.value == SeqValue(o.result.value))
        && (r.Err? ==> r.error == o.result.error)
    {
      var header := DecodeSeqHeader();
      if header.Err? {
        return Err(header.error);
      }
      r := DecodeSeqValueOf(header.value);
    }

    // -------------------------------------------------------------------------------------------
    // Booleans

    /** Decoding a boolean's body: there is none, the value is the header's. */
    method DecodeBoolValueOf(header: BoolHeaders.BoolHeader) returns (r: Result<BoolValue>)
      ensures r == Ok(BoolValue(BoolHeaders.Value(header)))
    {
      r := Ok(BoolValue(header.value));
    }

    /** Skipping a boolean's body: there is nothing to skip. */
    method SkipBoolValueOf(header: BoolHeaders.BoolHeader) returns (r: Result<()>)
      ensures r == Ok(())
    {
      r := Ok(());
    }
  }

  lemma PrependNothing(o: Outcome<seq<Value>>)
    ensures Prepend([], o) == o
  {
    if o.result.Ok? {
      assert [] + o.result.value == o.result.value;
    }
  }

  /** Prepending in two steps is prepending the two lists joined. */
  lemma PrependTwice(items: seq<Value>, more: seq<Value>, o: Outcome<seq<Value>>)
    ensures Prepend(items, Prepend(more, o)) == Prepend(items + more, o)
  {
    if o.result.Ok? {
      assert items + (more + o.result.value) == (items + more) + o.result.value;
    }
  }
}
