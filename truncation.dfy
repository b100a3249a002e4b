/** Decoding a cut-off input: a value that decodes from `input` decodes the same from any prefix of
    `input` that still holds all of it, and fails with end-of-file from any prefix that stops inside
    it. Nothing the decoder reads lies beyond the value's own bytes. */
module Truncation {
  import opened Errors
  import opened Markers
  import opened Headers
  import opened Values
  import opened DecoderSpec

  /** `o` is a step on the whole input and `t` the same step on its first `k` bytes: if `o`
      succeeds, `t` is `o` when the prefix holds everything `o` read, and an end-of-file error
      otherwise. */
  ghost predicate PrefixSafe<T>(o: Outcome<T>, t: Outcome<T>, k: nat) {
    o.result.Ok? ==>
      && (o.after.index <= k ==> t == o)
      && (k < o.after.index ==> t.result == Err(EndOfFile()))
  }

  /** The decoders of the kinds outside this model behave the same way on a prefix. */
  ghost predicate OthersPrefixSafe(k: OpaqueKinds) {
    && (forall m: Marker, input: seq<bv8>, c: Cursor, j: nat | c.index <= j <= |input| ::
          PrefixSafe(k.header(m, input, c), k.header(m, input[..j], c), j))
    && (forall h: Header, input: seq<bv8>, c: Cursor, j: nat | c.index <= j <= |input| ::
          PrefixSafe(k.valueOf(h, input, c), k.valueOf(h, input[..j], c), j))
  }

  // ---------------------------------------------------------------------------------------------
  // Pulling bytes

  lemma PullBytesPrefix(input: seq<bv8>, c: Cursor, len: nat, k: nat)
    requires c.index <= k <= |input|
    ensures PrefixSafe(PullBytesAt(input, c, len), PullBytesAt(input[..k], c, len), k)
  {
    if c.index + len <= k {
      assert input[..k][c.index..c.index + len] == input[c.index..c.index + len];
    }
  }

  lemma PullByteExpectingPrefix(input: seq<bv8>, c: Cursor, m: Marker, k: nat)
    requires c.index <= k <= |input|
    ensures PrefixSafe(PullByteExpectingAt(input, c, m), PullByteExpectingAt(input[..k], c, m), k)
  {
  }

  lemma PullLenBytesPrefix(ctx: Context, input: seq<bv8>, c: Cursor, width: nat, k: nat)
    requires c.index <= k <= |input| && width <= 8
    ensures PrefixSafe(PullLenBytesAt(ctx, input, c, width), PullLenBytesAt(ctx, input[..k], c, width), k)
  {
    PullBytesPrefix(input, c, width, k);
  }

  // ---------------------------------------------------------------------------------------------
  // Headers

  lemma BytesHeaderPrefix(ctx: Context, input: seq<bv8>, c: Cursor, k: nat)
    requires c.index <= k <= |input|
    ensures PrefixSafe(BytesHeaderAt(ctx, input, c), BytesHeaderAt(ctx, input[..k], c), k)
  {
    var tag := PullByteExpectingAt(input, c, Marker.Bytes);
    PullByteExpectingPrefix(input, c, Marker.Bytes, k);
    if tag.result.Ok? && tag.after.index <= k {
      PullLenBytesPrefix(ctx, input, tag.after, BytesLenWidth(tag.result.value), k);
    }
  }

  lemma SeqHeaderPrefix(ctx: Context, input: seq<bv8>, c: Cursor, k: nat)
    requires c.index <= k <= |input|
    ensures PrefixSafe(SeqHeaderAt(ctx, input, c), SeqHeaderAt(ctx, input[..k], c), k)
  {
    var tag := PullByteExpectingAt(input, c, Marker.Seq);
    PullByteExpectingPrefix(input, c, Marker.Seq, k);
    if tag.result.Ok? && tag.after.index <= k && tag.result.value & COMPACT_VARIANT_BIT == 0 {
      PullLenBytesPrefix(ctx, input, tag.after, SeqLenWidth(tag.result.value), k);
    }
  }

  /** A header that decodes from `input` decodes the same from a prefix holding all of it, and fails
      with end-of-file from a shorter one. */
  lemma HeaderPrefix(ctx: Context, input: seq<bv8>, c: Cursor, k: nat)
    requires c.index <= k <= |input| && WellBehaved(ctx.others) && OthersPrefixSafe(ctx.others)
    ensures PrefixSafe(HeaderAt(ctx, input, c), HeaderAt(ctx, input[..k], c), k)
  {
    if c.index < k {
      assert input[..k][c.index] == input[c.index];
      var m := Detect(input[c.index]);
      if m == Marker.Bytes {
        BytesHeaderPrefix(ctx, input, c, k);
      } else if m == Marker.Seq {
        SeqHeaderPrefix(ctx, input, c, k);
      } else if m == Marker.Bool {
        PullByteExpectingPrefix(input, c, Marker.Bool, k);
      }
    }
  }

  // ---------------------------------------------------------------------------------------------
  // Values

  /** A value that decodes from `input` decodes to the same value, ending at the same place, from
      every prefix of `input` that holds all its bytes; from every prefix that stops inside it,
      decoding fails with end-of-file. */
  lemma {:induction false} ValuePrefix(ctx: Context, input: seq<bv8>, c: Cursor, k: nat)
    requires c.index <= k <= |input| && WellBehaved(ctx.others) && OthersPrefixSafe(ctx.others)
    ensures PrefixSafe(ValueAt(ctx, input, c), ValueAt(ctx, input[..k], c), k)
    decreases |input| - c.index, 0, 0
  {
    HeaderPrefix(ctx, input, c, k);
    var h := HeaderAt(ctx, input, c);
    if h.result.Ok? && h.after.index <= k {
      ValueOfPrefix(ctx, input, h.after, h.result.value, k);
    }
  }

  lemma {:induction false} ValueOfPrefix(ctx: Context, input: seq<bv8>, c: Cursor, h: Header, k: nat)
    requires c.index <= k <= |input| && WellBehaved(ctx.others) && OthersPrefixSafe(ctx.others)
    ensures PrefixSafe(ValueOfAt(ctx, input, c, h), ValueOfAt(ctx, input[..k], c, h), k)
    decreases |input| - c.index, 2, 0
  {
    match h
    case Bytes(bh) => PullBytesPrefix(input, c, bh.len, k);
    case Seq(sh) => SeqItemsPrefix(ctx, input, c, sh.len, k);
    case _ =>
  }

  lemma {:induction false} SeqItemsPrefix(ctx: Context, input: seq<bv8>, c: Cursor, n: nat, k: nat)
    requires c.index <= k <= |input| && WellBehaved(ctx.others) && OthersPrefixSafe(ctx.others)
    ensures PrefixSafe(SeqItemsAt(ctx, input, c, n), SeqItemsAt(ctx, input[..k], c, n), k)
    decreases |input| - c.index, 1, n
  {
    if n > 0 {
      ValuePrefix(ctx, input, c, k);
      var first := ValueAt(ctx, input, c);
      if first.result.Ok? && first.after.index <= k {
        SeqItemsPrefix(ctx, input, first.after, n - 1, k);
      }
    }
  }

  /** Cutting the input anywhere inside a value that decodes makes it fail with end-of-file. */
  lemma TruncatedValueFails(ctx: Context, input: seq<bv8>, c: Cursor, k: nat)
    requires c.index <= |input| && WellBehaved(ctx.others) && OthersPrefixSafe(ctx.others)
    requires ValueAt(ctx, input, c).result.Ok? && c.index <= k < ValueAt(ctx, input, c).after.index
    ensures ValueAt(ctx, input[..k], c).result == Err(EndOfFile())
  {
    ValuePrefix(ctx, input, c, k);
  }
}
