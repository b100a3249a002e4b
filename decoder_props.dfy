/** Properties of decoding that relate several steps: how a sequence's items follow one another,
    how `pos` keeps step with the reader, and how skipping a value compares to decoding it. */
module DecoderProperties {
  import opened Errors
  import opened Markers
  import opened Headers
  import opened Values
  import opened DecoderSpec

  // ---------------------------------------------------------------------------------------------
  // Sequence items are decoded one after the other, in wire order

  /** After a successful outcome, `n` more items decoded from where it stopped, appended to its
      items; a failure stays as it is. */
  function Then(ctx: Context, input: seq<bv8>, o: Outcome<seq<Value>>, n: nat): Outcome<seq<Value>>
    requires o.after.index <= |input| && WellBehaved(ctx.others)
  {
    if o.result.Ok? then Prepend(o.result.value, SeqItemsAt(ctx, input, o.after, n)) else o
  }

  lemma PrependThen(ctx: Context, input: seq<bv8>, v: Value, o: Outcome<seq<Value>>, n: nat)
    requires o.after.index <= |input| && WellBehaved(ctx.others)
    ensures Prepend([v], Then(ctx, input, o, n)) == Then(ctx, input, Prepend([v], o), n)
  {
    if o.result.Ok? {
      var rest := SeqItemsAt(ctx, input, o.after, n);
      if rest.result.Ok? {
        assert [v] + (o.result.value + rest.result.value) == ([v] + o.result.value) + rest.result.value;
      }
    }
  }

  /** Decoding `a + b` items is decoding `a` items and then `b` more from where they stopped. */
  lemma {:induction false} SeqItemsSplit(ctx: Context, input: seq<bv8>, c: Cursor, a: nat, b: nat)
    requires c.index <= |input| && WellBehaved(ctx.others)
    ensures SeqItemsAt(ctx, input, c, a + b) == Then(ctx, input, SeqItemsAt(ctx, input, c, a), b)
    decreases a
  {
    if a == 0 {
      var rest := SeqItemsAt(ctx, input, c, b);
      if rest.result.Ok? {
        assert [] + rest.result.value == rest.result.value;
      }
    } else {
      var first := ValueAt(ctx, input, c);
      if first.result.Ok? {
        SeqItemsSplit(ctx, input, first.after, a - 1, b);
        PrependThen(ctx, input, first.result.value, SeqItemsAt(ctx, input, first.after, a - 1), b);
        assert a + b - 1 == (a - 1) + b;
      }
    }
  }

  /** If the first `k` items decode and the next one does not, a sequence of any `n > k` items
      fails with that item's error, stopping where that item stopped. */
  lemma FailingItemFailsSeq(ctx: Context, input: seq<bv8>, c: Cursor, k: nat, n: nat)
    requires c.index <= |input| && WellBehaved(ctx.others) && k < n
    requires SeqItemsAt(ctx, input, c, k).result.Ok?
    requires ValueAt(ctx, input, SeqItemsAt(ctx, input, c, k).after).result.Err?
    ensures var failed := ValueAt(ctx, input, SeqItemsAt(ctx, input, c, k).after);
      SeqItemsAt(ctx, input, c, n) == Outcome(Err(failed.result.error), failed.after)
  {
    SeqItemsSplit(ctx, input, c, k, n - k);
  }

  /** In a sequence of `n` items that decodes, the first `k` items are those `SeqItemsAt` decodes
      for `k`, and item `k` is the value decoded right where they stopped. */
  lemma ItemsInWireOrder(ctx: Context, input: seq<bv8>, c: Cursor, k: nat, n: nat)
    requires c.index <= |input| && WellBehaved(ctx.others) && k < n
    requires SeqItemsAt(ctx, input, c, n).result.Ok?
    ensures SeqItemsAt(ctx, input, c, k).result.Ok?
    ensures var before := SeqItemsAt(ctx, input, c, k);
      var item := ValueAt(ctx, input, before.after);
      var all := SeqItemsAt(ctx, input, c, n).result.value;
      && item.result.Ok?
      && all[..k] == before.result.value
      && all[k] == item.result.value
  {
    SeqItemsSplit(ctx, input, c, k, n - k);
    var before := SeqItemsAt(ctx, input, c, k);
    var rest := SeqItemsAt(ctx, input, before.after, n - k);
    var item := ValueAt(ctx, input, before.after);
    assert item.result.Ok? && rest.result.value[0] == item.result.value;
  }

  // ---------------------------------------------------------------------------------------------
  // `pos` keeps step with the reader while decoding

  /** The step moved `pos` exactly as far as it moved the reader. */
  ghost predicate InStep<T>(o: Outcome<T>, c: Cursor) {
    o.after.pos + c.index == o.after.index + c.pos
  }

  /** The decoders of the kinds outside this model count every byte they consume in `pos`. */
  ghost predicate OthersKeepPosInStep(k: OpaqueKinds) {
    && (forall m: Marker, input: seq<bv8>, c: Cursor :: InStep(k.header(m, input, c), c))
    && (forall h: Header, input: seq<bv8>, c: Cursor :: InStep(k.valueOf(h, input, c), c))
  }

  lemma HeaderInStep(ctx: Context, input: seq<bv8>, c: Cursor)
    requires c.index <= |input| && WellBehaved(ctx.others) && OthersKeepPosInStep(ctx.others)
    ensures InStep(HeaderAt(ctx, input, c), c)
  {
    if c.index < |input| {
      var m := Detect(input[c.index]);
      if m == Marker.Bytes {
        assert HeaderAt(ctx, input, c).after == BytesHeaderAt(ctx, input, c).after;
      } else if m == Marker.Seq {
        assert HeaderAt(ctx, input, c).after == SeqHeaderAt(ctx, input, c).after;
      } else if m == Marker.Bool {
        assert HeaderAt(ctx, input, c).after == Advance(c, 1);
      }
    }
  }

  /** Decoding a value, on success and on failure, advances `pos` by exactly the bytes it took
      from the reader. */
  lemma {:induction false} ValueInStep(ctx: Context, input: seq<bv8>, c: Cursor)
    requires c.index <= |input| && WellBehaved(ctx.others) && OthersKeepPosInStep(ctx.others)
    ensures InStep(ValueAt(ctx, input, c), c)
    decreases |input| - c.index, 0, 0
  {
    HeaderInStep(ctx, input, c);
    var h := HeaderAt(ctx, input, c);
    if h.result.Ok? {
      ValueOfInStep(ctx, input, h.after, h.result.value);
    }
  }

  lemma {:induction false} ValueOfInStep(ctx: Context, input: seq<bv8>, c: Cursor, h: Header)
    requires c.index <= |input| && WellBehaved(ctx.others) && OthersKeepPosInStep(ctx.others)
    ensures InStep(ValueOfAt(ctx, input, c, h), c)
    decreases |input| - c.index, 2, 0
  {
    match h
    case Seq(sh) => SeqItemsInStep(ctx, input, c, sh.len);
    case _ =>
  }

  lemma {:induction false} SeqItemsInStep(ctx: Context, input: seq<bv8>, c: Cursor, n: nat)
    requires c.index <= |input| && WellBehaved(ctx.others) && OthersKeepPosInStep(ctx.others)
    ensures InStep(SeqItemsAt(ctx, input, c, n), c)
    decreases |input| - c.index, 1, n
  {
    if n > 0 {
      ValueInStep(ctx, input, c);
      var first := ValueAt(ctx, input, c);
      if first.result.Ok? {
        SeqItemsInStep(ctx, input, first.after, n - 1);
      }
    }
  }

  /** A decoder that starts at the beginning of its input and only decodes has `pos` equal to the
      number of bytes it consumed. */
  lemma PosCountsConsumedBytes(ctx: Context, input: seq<bv8>)
    requires WellBehaved(ctx.others) && OthersKeepPosInStep(ctx.others)
    ensures ValueAt(ctx, input, Cursor(0, 0)).after.pos == ValueAt(ctx, input, Cursor(0, 0)).after.index
  {
    ValueInStep(ctx, input, Cursor(0, 0));
  }

  // ---------------------------------------------------------------------------------------------
  // Skipping a value consumes what decoding it consumes

  /** Both steps stop at the same place in the input and both succeed or both fail. */
  ghost predicate SameSteps<T, U>(a: Outcome<T>, b: Outcome<U>) {
    a.after.index == b.after.index && (a.result.Ok? <==> b.result.Ok?)
  }

  /** The kinds outside this model read the input alike whatever `pos` is, and skip what they decode. */
  ghost predicate OthersSkipLikeDecode(k: OpaqueKinds) {
    && (forall m: Marker, input: seq<bv8>, c: Cursor, d: Cursor | c.index == d.index ::
          SameSteps(k.header(m, input, c), k.header(m, input, d)) &&
          (k.header(m, input, c).result.Ok? ==> k.header(m, input, c).result.value == k.header(m, input, d).result.value))
    && (forall h: Header, input: seq<bv8>, c: Cursor, d: Cursor | c.index == d.index ::
          SameSteps(k.skipOf(h, input, c), k.valueOf(h, input, d)))
  }

  /** A header decodes alike wherever `pos` stands. */
  lemma HeaderIgnoresPos(ctx: Context, input: seq<bv8>, c: Cursor, d: Cursor)
    requires c.index == d.index <= |input| && WellBehaved(ctx.others) && OthersSkipLikeDecode(ctx.others)
    ensures SameSteps(HeaderAt(ctx, input, c), HeaderAt(ctx, input, d))
    ensures HeaderAt(ctx, input, c).result.Ok? ==>
      HeaderAt(ctx, input, c).result.value == HeaderAt(ctx, input, d).result.value
  {
    if c.index < |input| {
      var m := Detect(input[c.index]);
      if m == Marker.Bytes {
        BytesHeaderIgnoresPos(ctx, input, c, d);
      } else if m == Marker.Seq {
        SeqHeaderIgnoresPos(ctx, input, c, d);
      }
    }
  }

  lemma BytesHeaderIgnoresPos(ctx: Context, input: seq<bv8>, c: Cursor, d: Cursor)
    requires c.index == d.index <= |input|
    ensures SameSteps(BytesHeaderAt(ctx, input, c), BytesHeaderAt(ctx, input, d))
    ensures BytesHeaderAt(ctx, input, c).result.Ok? ==>
      BytesHeaderAt(ctx, input, c).result.value == BytesHeaderAt(ctx, input, d).result.value
  {
    var tc := PullByteExpectingAt(input, c, Marker.Bytes);
    var td := PullByteExpectingAt(input, d, Marker.Bytes);
    if tc.result.Ok? {
      var w := BytesLenWidth(tc.result.value);
      LenFieldIgnoresPos(ctx, input, tc.after, td.after, w);
    }
  }

  lemma SeqHeaderIgnoresPos(ctx: Context, input: seq<bv8>, c: Cursor, d: Cursor)
    requires c.index == d.index <= |input|
    ensures SameSteps(SeqHeaderAt(ctx, input, c), SeqHeaderAt(ctx, input, d))
    ensures SeqHeaderAt(ctx, input, c).result.Ok? ==>
      SeqHeaderAt(ctx, input, c).result.value == SeqHeaderAt(ctx, input, d).result.value
  {
    var tc := PullByteExpectingAt(input, c, Marker.Seq);
    var td := PullByteExpectingAt(input, d, Marker.Seq);
    if tc.result.Ok? && tc.result.value & COMPACT_VARIANT_BIT == 0 {
      var w := SeqLenWidth(tc.result.value);
      LenFieldIgnoresPos(ctx, input, tc.after, td.after, w);
    }
  }

  /** A length field reads the same bytes, to the same value, whatever `pos` the decoder counts. */
  lemma LenFieldIgnoresPos(ctx: Context, input: seq<bv8>, c: Cursor, d: Cursor, width: nat)
    requires c.index == d.index <= |input| && width <= 8
    ensures var lc, ld := PullLenBytesAt(ctx, input, c, width), PullLenBytesAt(ctx, input, d, width);
      && lc.after.index == ld.after.index
      && (lc.result.Ok? <==> ld.result.Ok?)
      && (lc.result.Ok? ==> lc.result.value == ld.result.value)
  {
  }

  /** Skipping a value from `c` stops where decoding it from `d` stops, and fails exactly when
      decoding fails, whenever the two cursors stand at the same index. */
  lemma {:induction false} SkipLikeDecode(ctx: Context, input: seq<bv8>, c: Cursor, d: Cursor)
    requires c.index == d.index <= |input| && WellBehaved(ctx.others) && OthersSkipLikeDecode(ctx.others)
    ensures SameSteps(SkipAt(ctx, input, c), ValueAt(ctx, input, d))
    decreases |input| - c.index, 0, 0
  {
    HeaderIgnoresPos(ctx, input, c, d);
    var h := HeaderAt(ctx, input, c);
    if h.result.Ok? {
      SkipOfLikeDecode(ctx, input, h.after, HeaderAt(ctx, input, d).after, h.result.value);
    }
  }

  lemma {:induction false} SkipOfLikeDecode(ctx: Context, input: seq<bv8>, c: Cursor, d: Cursor, h: Header)
    requires c.index == d.index <= |input| && WellBehaved(ctx.others) && OthersSkipLikeDecode(ctx.others)
    ensures SameSteps(SkipOfAt(ctx, input, c, h), ValueOfAt(ctx, input, d, h))
    decreases |input| - c.index, 2, 0
  {
    match h
    case Seq(sh) => SkipItemsLikeDecode(ctx, input, c, d, sh.len);
    case _ =>
  }

  lemma {:induction false} SkipItemsLikeDecode(ctx: Context, input: seq<bv8>, c: Cursor, d: Cursor, n: nat)
    requires c.index == d.index <= |input| && WellBehaved(ctx.others) && OthersSkipLikeDecode(ctx.others)
    ensures SameSteps(SkipItemsAt(ctx, input, c, n), SeqItemsAt(ctx, input, d, n))
    decreases |input| - c.index, 1, n
  {
    if n > 0 {
      SkipLikeDecode(ctx, input, c, d);
      var skipped := SkipAt(ctx, input, c);
      var decoded := ValueAt(ctx, input, d);
      if skipped.result.Ok? {
        SkipItemsLikeDecode(ctx, input, skipped.after, decoded.after, n - 1);
      }
    }
  }

  /** A skipped byte array moves the reader past its bytes but leaves `pos` where the header put
      it, whereas decoding the same array counts its bytes in `pos`. */
  lemma SkippedBytesAreNotCounted(ctx: Context, input: seq<bv8>, c: Cursor)
    requires c.index <= |input| && WellBehaved(ctx.others)
    requires HeaderAt(ctx, input, c).result.Ok? && HeaderAt(ctx, input, c).result.value.Bytes?
    ensures var h := HeaderAt(ctx, input, c);
      var len := h.result.value.bytesHeader.len;
      && SkipAt(ctx, input, c).after.pos == h.after.pos
      && (SkipAt(ctx, input, c).result.Ok? <==> ValueAt(ctx, input, c).result.Ok?)
      && (ValueAt(ctx, input, c).result.Ok? ==>
            && ValueAt(ctx, input, c).after.pos == h.after.pos + len
            && SkipAt(ctx, input, c).after.index == ValueAt(ctx, input, c).after.index)
  {
  }
}
