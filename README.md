# lilliput decoder core, headers and integer values in Dafny

This project models the core of lilliput, a compact, self-describing binary serialization format. It covers:

- **The decoder** (`Decoding.Decoder`). A reader over the input bytes plus the decoder's own `pos`
  counter. It provides `peek_byte`, `pull_byte`, `pull_byte_expecting`, `pull_bytes`,
  `pull_bytes_into` and the big-endian, zero-padded length reader `pull_len_bytes`. On top of these
  sit `decode_header`, `decode_value`, `decode_value_of`, `skip_value` and `skip_value_of`, and the
  byte-array and sequence decoders. The reader is `const input: seq<bv8>` with `var index`, and
  `pos` is a separate field. `pull_len_bytes` fills an 8-byte `array` in place, as the source does.
- **What decoding means** (`DecoderSpec`). The same operations as functions over a `Cursor(index, pos)`.
  Each returns an `Outcome(result, after)`: the result and where the reader and `pos` end up, on
  success and on failure alike. Every decoder method is proved to do exactly what its function says.
  Lemmas then state what each function means: when it succeeds, what it returns, which error it gives
  and at which `pos`.
- **Multi-step properties** (`DecoderProperties`):
  - sequence items are decoded in wire order;
  - the first failing item fails the whole sequence;
  - `pos` keeps step with the reader while decoding;
  - skipping a value consumes what decoding it consumes, except that skipped byte-array bodies are
    not counted in `pos`.
- **Round trips** (`RoundTrips`):
  - booleans through the boolean encoder;
  - byte-array headers and values, and compact and extended sequence headers, through their tag byte
    and big-endian length field, for every field width;
  - compact sequences of booleans.
- **Headers** (`Headers`, `BoolHeaders`) and the **boolean encoder** (`BoolEncoding.Encoder`, over a
  growable output buffer).
- **Integer values** (`IntValues`): `IntValue` is `Signed` or `Unsigned` at four widths, with `eq`,
  `cmp` and the hash key defined across signedness. All three are proved to agree with the
  mathematical value `Num`, and from that the laws Rust requires are proved.

Decoders whose code is not part of this model sit behind function-valued parameters in
`DecoderSpec.OpaqueKinds`. These are the int, string, map, float, unit and null decoders. They are
assumed only to stay within the input and to consume at least a tag byte when a header decodes.

Tag layout. `marker.rs` and the per-kind header files are not part of this model, so the following
layout is assumed:

- `Marker::detect` takes the highest set bit: `Int` owns bit 7, `String` bit 6, `Seq` bit 5, `Map`
  bit 4, `Float` bit 3, `Bytes` bit 2, `Bool` bit 1 and `Unit` bit 0; the zero byte is `Null`.
- `LEN_WIDTH_EXPONENT_BITS = 0b11`.
- `COMPACT_VARIANT_BIT = 0b1_0000`, `COMPACT_LEN_BITS = 0b1111` and `EXTENDED_LEN_WIDTH_BITS = 0b111`.

This layout agrees with the boolean constants `TYPE_BITS = 0b10` and `MASK = 0b11`.

Behaviour of the code worth noting:

- The code has no recursion-depth guard. `decode_seq_of` recurses with no counter.
- Skipping a byte array does not advance `pos`.
- A header's length field is read by `pull_len_bytes`, and a value too large for `usize` fails with
  number-out-of-range at the field's start; the bytes are consumed anyway.

## Model

| member | source | states |
|---|---|---|
| Decoding.Decoder.FromReader | lilliput-core/src/decoder.rs:30-32 | a new decoder reads the given bytes from the start with `pos` zero |
| Decoding.Decoder.PeekByte | lilliput-core/src/decoder.rs:131-133 | returns the next byte or end-of-file and changes neither the reader nor `pos` |
| Decoding.Decoder.PeekMarker | lilliput-core/src/decoder.rs:60-62 | the marker of the next byte, or end-of-file; nothing moves |
| Decoding.Decoder.PullByte | lilliput-core/src/decoder.rs:153-159 | the next byte, with reader and `pos` both advanced by one; at end of input end-of-file, nothing moves |
| Decoding.Decoder.PullByteExpecting | lilliput-core/src/decoder.rs:136-150 | the next byte when it carries the marker, advancing reader and `pos` by one; a byte of another kind is consumed and fails with invalid-type at the `pos` before the pull |
| Decoding.Decoder.PullBytesInto | lilliput-core/src/decoder.rs:162-174 | fills `buf[from..]` in place with exactly the next bytes and leaves `buf[..from]` unchanged; advances by that many; an empty fill succeeds and moves nothing; too few bytes give end-of-file and move nothing |
| Decoding.Decoder.PullBytes | lilliput-core/src/decoder.rs:177-189 | exactly the next `len` bytes, reader and `pos` advanced by `len`; end-of-file moves nothing |
| Decoding.Decoder.PullLenBytes | lilliput-core/src/decoder.rs:192-202 | reading `width` bytes into the tail of a zeroed 8-byte array and taking it big-endian gives `PullLenBytesAt`: the field's big-endian value |
| DecoderSpec.PullBytesAt | lilliput-core/src/decoder.rs:177-189 | succeeds iff `len` bytes remain; returns exactly `input[index..index+len]` and advances by `len`; a failure is end-of-file with the cursor unchanged; `len == 0` succeeds in place |
| DecoderSpec.PeekByteAt | lilliput-core/src/decoder.rs:131-133 | succeeds iff a byte remains, and is then the byte at the cursor; a failure is end-of-file |
| DecoderSpec.PullByteAt | lilliput-core/src/decoder.rs:153-159 | succeeds iff a byte remains; returns exactly `input[index]` and advances by one; a failure is end-of-file with the cursor unchanged |
| DecoderSpec.PullLenBytesValue | lilliput-core/src/decoder.rs:192-202 | the length is the big-endian value of the field, below `256^width`; it fails exactly when it does not fit `usize`, with number-out-of-range at the field's starting `pos` |
| DecoderSpec.PullLenBytesFits64 | lilliput-core/src/decoder.rs:196-201 | on a 64-bit platform every complete field of at most 8 bytes converts |
| DecoderSpec.PullByteExpectingAt | lilliput-core/src/decoder.rs:136-150 | succeeds iff a byte remains and carries the marker; a byte of another kind is consumed and gives invalid-type at the old `pos`; at end of input end-of-file and nothing moves |
| Binary.BigEndianZeroPadding | lilliput-core/src/decoder.rs:196-199 | zero bytes in front do not change a big-endian value (the padded 8-byte buffer) |
| Binary.BigEndianOfToBigEndian | lilliput-core/src/decoder.rs:199 | the `w`-byte big-endian form of any `n < 256^w` reads back as `n` |
| DecoderSpec.HeaderAt | lilliput-core/src/decoder.rs:67-79 | `decode_header`: stays within the input, a decoded header consumes at least the tag byte, end of input is end-of-file, and a bytes, seq or bool header has the marker of its tag byte |
| Decoding.Decoder.DecodeHeader | lilliput-core/src/decoder.rs:67-79 | peeks at the marker and dispatches; result and new reader and `pos` are `HeaderAt`'s; a decoded header advances the reader |
| Decoding.Decoder.DecodeValue | lilliput-core/src/decoder.rs:52-55 | `decode_header` then `decode_value_of` on that header: result and new state are `ValueAt`'s |
| DecoderSpec.ValueAt | lilliput-core/src/decoder.rs:52-55 | stays within the input; a decoded value consumes at least its tag byte; at end of input it is end-of-file with nothing moved |
| DecoderSpec.ValueOfAt | lilliput-core/src/decoder.rs:109-121 | a decoded byte array has the header's `len` bytes, a decoded sequence the header's `len` items, and a bool header is its own value and reads nothing |
| Decoding.Decoder.DecodeValueOf | lilliput-core/src/decoder.rs:109-121 | dispatches on the header variant; result and new state are `ValueOfAt`'s |
| Decoding.Decoder.SkipValue | lilliput-core/src/decoder.rs:85-88 | `decode_header` then `skip_value_of`: result and new state are `SkipAt`'s |
| DecoderSpec.SkipAt | lilliput-core/src/decoder.rs:85-88 | stays within the input; a skipped value consumes at least its tag byte; at end of input it is end-of-file with nothing moved |
| DecoderSpec.SkipOfAt | lilliput-core/src/decoder.rs:92-104 | skipping a byte array leaves `pos` unchanged and moves the reader by `len`; a boolean skips nothing |
| Decoding.Decoder.SkipValueOf | lilliput-core/src/decoder.rs:92-104 | dispatches on the header variant; result and new state are `SkipOfAt`'s |
| DecoderSpec.BytesHeaderAt | lilliput-core/src/decoder/bytes.rs:46-58 | stays within the input, and moves `pos` exactly as far as the reader |
| DecoderSpec.BytesHeaderAtMeaning | lilliput-core/src/decoder/bytes.rs:46-58 | decodes iff the tag carries the bytes marker and a `2^(tag & 0b11)`-byte field follows whose big-endian value fits `usize`; `len` is that value and decoding ends right after the field; another kind fails with invalid-type after one byte |
| DecoderSpec.BytesLenWidth | lilliput-core/src/decoder/bytes.rs:49-51 | the length field is 1, 2, 4 or 8 bytes wide |
| Decoding.Decoder.DecodeBytesHeader | lilliput-core/src/decoder/bytes.rs:46-58 | computes the width as `1 << exponent`; result and new state are `BytesHeaderAt`'s |
| Decoding.Decoder.DecodeBytesOf | lilliput-core/src/decoder/bytes.rs:83-89 | exactly the next `header.len` bytes, or end-of-file with nothing moved |
| Decoding.Decoder.DecodeBytesBufOf | lilliput-core/src/decoder/bytes.rs:93-107 | the owned buffer holds the same bytes `decode_bytes_of` returns |
| Decoding.Decoder.DecodeBytesValueOf | lilliput-core/src/decoder/bytes.rs:75-77 | the buffer wrapped as a byte-array value, exactly `decode_value_of` on the byte-array header, with `len` bytes |
| Decoding.Decoder.SkipBytesValueOf | lilliput-core/src/decoder/bytes.rs:64-69 | the reader skips `len` bytes or fails with end-of-file; `pos` is never changed |
| DecoderSpec.ReaderSkipAt | lilliput-core/src/decoder/bytes.rs:68 | succeeds iff `len` bytes remain, moving the reader by `len` and leaving `pos` alone; a failure is end-of-file with the cursor unchanged |
| Headers.BytesForLen | lilliput-core/src/decoder/bytes.rs:57 | the header built for a decoded length has that length |
| DecoderSpec.BytesAt | lilliput-core/src/decoder/bytes.rs:19-34 | a decoded byte array is exactly the `len` input bytes right after its header, and decoding ends after them |
| Decoding.Decoder.DecodeBytes | lilliput-core/src/decoder/bytes.rs:19-26 | header then body: result and new state are `BytesAt`'s |
| Decoding.Decoder.DecodeBytesBuf | lilliput-core/src/decoder/bytes.rs:30-34 | header then owned body: result and new state are `BytesAt`'s |
| Decoding.Decoder.DecodeBytesValue | lilliput-core/src/decoder/bytes.rs:38-40 | `decode_bytes_buf` wrapped as a byte-array value |
| DecoderSpec.SeqHeaderAt | lilliput-core/src/decoder/seq.rs:37-66 | stays within the input, and moves `pos` exactly as far as the reader |
| DecoderSpec.SeqHeaderAtMeaning | lilliput-core/src/decoder/seq.rs:37-52 | a decoded header needs the sequence marker; another kind fails with invalid-type after one byte; with the compact bit set the length is `tag & 0b1111` and only the tag byte is read |
| DecoderSpec.ExtendedSeqHeaderAtMeaning | lilliput-core/src/decoder/seq.rs:53-64 | with the compact bit clear, decodes iff a `1 + (tag & 0b111)`-byte field follows whose big-endian value fits `usize`; the length is that value and decoding ends after the field |
| DecoderSpec.SeqLenWidth | lilliput-core/src/decoder/seq.rs:54 | the extended length field is 1 to 8 bytes wide, one more than the width bits |
| Decoding.Decoder.DecodeSeqHeader | lilliput-core/src/decoder/seq.rs:37-66 | result and new state are `SeqHeaderAt`'s |
| DecoderSpec.SeqItemsAt | lilliput-core/src/decoder/seq.rs:97-106 | a decoded sequence has exactly `n` items |
| Decoding.Decoder.DecodeSeqOf | lilliput-core/src/decoder/seq.rs:97-106 | the loop of `len` `decode_value` calls gives `SeqItemsAt`: exactly `len` items, the first error aborts with no items |
| Decoding.Decoder.DecodeSeqValueOf | lilliput-core/src/decoder/seq.rs:89-91 | the items wrapped as a sequence value, exactly `decode_value_of` on the sequence header |
| Decoding.Decoder.SkipSeqValueOf | lilliput-core/src/decoder/seq.rs:72-83 | the loop of `len` `skip_value` calls gives `SkipItemsAt`, stopping at the first failure |
| DecoderSpec.SkipItemsAt | lilliput-core/src/decoder/seq.rs:72-83 | stays within the input; skipping no items succeeds in place; skipping `n > 0` items consumes at least `n` bytes |
| DecoderSpec.SeqAt | lilliput-core/src/decoder/seq.rs:19-23 | a decoded sequence has as many items as its header says |
| Decoding.Decoder.DecodeSeq | lilliput-core/src/decoder/seq.rs:19-23 | header then items: result and new state are `SeqAt`'s |
| Decoding.Decoder.DecodeSeqValue | lilliput-core/src/decoder/seq.rs:27-31 | `decode_seq_value_of` after the header, wrapped as a sequence value |
| DecoderProperties.SeqItemsSplit | lilliput-core/src/decoder/seq.rs:97-106 | decoding `a + b` items is decoding `a` items and then `b` more from where they stopped |
| DecoderProperties.FailingItemFailsSeq | lilliput-core/src/decoder/seq.rs:100-103 | if item `k` fails, every longer sequence fails with that item's error and no partial result |
| DecoderProperties.ItemsInWireOrder | lilliput-core/src/decoder/seq.rs:97-106 | item `k` of a decoded sequence is the value decoded right after the first `k` items |
| DecoderProperties.ValueInStep | lilliput-core/src/decoder.rs:153-189 | decoding a value, on success and on failure, advances `pos` by exactly the bytes taken from the reader |
| DecoderProperties.PosCountsConsumedBytes | lilliput-core/src/decoder.rs:30-32 | from a fresh decoder, `pos` after decoding a value is the number of bytes consumed |
| DecoderProperties.HeaderIgnoresPos | lilliput-core/src/decoder.rs:67-79 | a header decodes alike, to the same place, whatever `pos` is |
| DecoderProperties.SkipLikeDecode | lilliput-core/src/decoder.rs:85-104 | skipping a value stops where decoding it stops and fails exactly when decoding fails |
| DecoderProperties.SkippedBytesAreNotCounted | lilliput-core/src/decoder/bytes.rs:64-69 | a skipped byte array leaves `pos` after its header, whereas decoding it counts its bytes |
| Truncation.PullBytesPrefix | lilliput-core/src/decoder.rs:177-189 | on a prefix of the input, a pull that fit still returns the same bytes and cursor; one that reached past the prefix fails with end-of-file |
| Truncation.HeaderPrefix | lilliput-core/src/decoder.rs:67-79 | a header that decodes decodes the same from a prefix holding all its bytes and fails with end-of-file from a shorter one |
| Truncation.ValuePrefix | lilliput-core/src/decoder.rs:52-55 | the same for a whole value, through byte arrays, nested sequences and booleans: nothing past the value's own bytes is read |
| Truncation.SeqItemsPrefix | lilliput-core/src/decoder/seq.rs:97-106 | the same for the items of a sequence |
| Truncation.ValueOfPrefix | lilliput-core/src/decoder.rs:109-121 | the same for the body after a header: a byte array's bytes, a sequence's items, a boolean's empty body |
| Truncation.TruncatedValueFails | lilliput-core/src/decoder.rs:52-55 | cutting the input anywhere inside a value that decodes makes decoding it fail with end-of-file |
| Headers.Default | lilliput-core/src/header.rs:78-83 | the default header is `Null` |
| Headers.FromIntHeader | lilliput-core/src/header.rs:85-90 | wraps the header unchanged as `Int`, whose marker is `Int` |
| Headers.FromStringHeader | lilliput-core/src/header.rs:92-97 | wraps unchanged as `String`, marker `String` |
| Headers.FromSeqHeader | lilliput-core/src/header.rs:99-104 | wraps unchanged as `Seq`, marker `Seq` |
| Headers.FromMapHeader | lilliput-core/src/header.rs:106-111 | wraps unchanged as `Map`, marker `Map` |
| Headers.FromFloatHeader | lilliput-core/src/header.rs:113-118 | wraps unchanged as `Float`, marker `Float` |
| Headers.FromBytesHeader | lilliput-core/src/header.rs:120-125 | wraps unchanged as `Bytes`, marker `Bytes` |
| Headers.FromBoolHeader | lilliput-core/src/header.rs:127-132 | wraps unchanged as `Bool`, marker `Bool` |
| Headers.FromUnitHeader | lilliput-core/src/header.rs:134-139 | wraps unchanged as `Unit`, marker `Unit` |
| Headers.FromNullHeader | lilliput-core/src/header.rs:141-146 | wraps unchanged as `Null`, marker `Null` |
| Headers.MarkerOf | lilliput-core/src/header.rs:150-162 | each variant has its same-named marker, and only that variant has it |
| Headers.MarkerInjective | lilliput-core/src/header.rs:150-162 | two headers share a marker iff they are the same variant |
| BoolHeaders.New | lilliput-core/src/header/bool.rs:16-24 | `new(v).value() == v` |
| BoolHeaders.Value | lilliput-core/src/header/bool.rs:20-24 | `value()` is `true` exactly for the header holding `true` |
| BoolHeaders.BitLayout | lilliput-core/src/header/bool.rs:28-31 | `TYPE_BITS` and `VALUE_BIT` are disjoint, both inside `MASK`, and together make `MASK` |
| BoolEncoding.BitsIf | lilliput-core/src/encoder/bool.rs:31 | `bits` when the condition holds, else no bits |
| BoolEncoding.BoolHeaderByte | lilliput-core/src/encoder/bool.rs:28-31 | the byte has the type bits, nothing outside `MASK`, and the value bit set iff the header holds `true` |
| BoolEncoding.BoolBytes | lilliput-core/src/encoder/bool.rs:28-31 | `true` is `0b11`, `false` is `0b10`, and distinct booleans give distinct bytes |
| BoolEncoding.Encoder.PushByte | lilliput-core/src/encoder/bool.rs:40 | appends exactly that byte |
| BoolEncoding.Encoder.EncodeBoolHeader | lilliput-core/src/encoder/bool.rs:28-41 | appends exactly one byte, `BoolHeaderByte(header)`, and succeeds |
| BoolEncoding.Encoder.HeaderForBool | lilliput-core/src/encoder/bool.rs:45-47 | `header_for_bool(v).value() == v` |
| BoolEncoding.Encoder.EncodeBool | lilliput-core/src/encoder/bool.rs:13-16 | writes exactly what `encode_bool_header(header_for_bool(v))` writes: one byte whose value bit is `v` |
| BoolEncoding.Encoder.EncodeBoolValue | lilliput-core/src/encoder/bool.rs:20-22 | writes what `encode_bool` writes for the wrapped boolean |
| DecoderSpec.BoolHeaderAt | lilliput-core/src/header/bool.rs:58-61 | a boolean header decodes iff the tag carries the bool marker; it is that one byte and its value is the value bit |
| Decoding.Decoder.DecodeBoolHeader | lilliput-core/src/header/bool.rs:58-61 | result and new state are `BoolHeaderAt`'s |
| Decoding.Decoder.DecodeBoolValueOf | lilliput-core/src/decoder.rs:117 | a boolean's value is its header's; nothing is read |
| Decoding.Decoder.SkipBoolValueOf | lilliput-core/src/decoder.rs:100 | skipping a boolean's body reads nothing and succeeds |
| RoundTrips.BoolHeaderRoundTrip | lilliput-core/src/header/bool.rs:50-62 | the byte the encoder writes for a header decodes to that header, consuming that one byte |
| RoundTrips.EncodeThenDecodeBoolHeader | lilliput-core/src/header/bool.rs:50-62 | encoding a boolean header gives one byte, and a fresh decoder over it returns an equal header |
| RoundTrips.BoolValueRoundTrip | lilliput-core/src/encoder/bool.rs:13-16 | an encoded boolean decodes as that boolean value and skips as one byte |
| RoundTrips.LenFieldDecodes | lilliput-core/src/decoder.rs:192-202 | a `w`-byte big-endian field holding `len` reads back as `len` and is consumed whole |
| RoundTrips.BytesHeaderRoundTrip | lilliput-core/src/header.rs:179-191 | a byte-array tag with any width exponent followed by `len` in that many bytes decodes to the header of length `len`, ending after the field |
| RoundTrips.BytesValueRoundTrip | lilliput-core/src/decoder/bytes.rs:93-107 | a byte-array header followed by its bytes decodes to exactly those bytes |
| RoundTrips.BytesSkipRoundTrip | lilliput-core/src/decoder/bytes.rs:64-69 | skipping the same byte array stops after its bytes with `pos` after its header |
| RoundTrips.CompactSeqHeaderRoundTrip | lilliput-core/src/decoder/seq.rs:40-52 | a compact tag holding `len <= 15` decodes to `Compact(len)` from the tag byte alone |
| RoundTrips.ExtendedSeqHeaderRoundTrip | lilliput-core/src/header.rs:179-191 | an extended tag with width `w` from 1 to 8 followed by `len` in `w` bytes decodes to `Extended(len)`, ending after the field |
| RoundTrips.BoolItemsRoundTrip | lilliput-core/src/decoder/seq.rs:97-106 | `n` encoded booleans decode as `n` sequence items, the booleans in the order written |
| RoundTrips.CompactBoolSeqRoundTrip | lilliput-core/src/decoder/seq.rs:37-52 | a compact sequence of up to 15 encoded booleans decodes to the sequence of those booleans |
| IntValues.IsSigned | lilliput-core/src/value/int.rs:28-33 | holds iff the variant is `Signed` |
| IntValues.FromI8 | lilliput-core/src/value/int.rs:52 | `Signed`, keeping the value |
| IntValues.FromI16 | lilliput-core/src/value/int.rs:53 | `Signed`, keeping the value |
| IntValues.FromI32 | lilliput-core/src/value/int.rs:54 | `Signed`, keeping the value |
| IntValues.FromI64 | lilliput-core/src/value/int.rs:55 | `Signed`, keeping the value |
| IntValues.FromU8 | lilliput-core/src/value/int.rs:57 | `Unsigned` of width 8, keeping the value |
| IntValues.FromU16 | lilliput-core/src/value/int.rs:58 | `Unsigned` of width 16, keeping the value |
| IntValues.FromU32 | lilliput-core/src/value/int.rs:59 | `Unsigned` of width 32, keeping the value |
| IntValues.FromU64 | lilliput-core/src/value/int.rs:60 | `Unsigned` of width 64, keeping the value |
| IntValues.FromUsize | lilliput-core/src/value/int.rs:62-79 | always `Unsigned` at the platform width, keeping the value |
| IntValues.FromIsize | lilliput-core/src/value/int.rs:62-79 | always `Unsigned` at the platform width; a negative value becomes the value plus `2^width` (same bits) |
| IntValues.Eq | lilliput-core/src/value/int.rs:81-108 | equal iff the mathematical values are equal, across widths and signedness |
| IntValues.Cmp | lilliput-core/src/value/int.rs:118-143 | the ordering of the mathematical values |
| IntValues.PartialCmp | lilliput-core/src/value/int.rs:110-114 | always `Some`, with `cmp`'s ordering |
| IntValues.HashKey | lilliput-core/src/value/int.rs:145-162 | the key is the value modulo `2^64`, so a non-negative value hashes as its `u64` |
| IntValues.ToSigned | lilliput-core/src/value/int.rs:257-262 | a signed value is returned unchanged; an unsigned one goes to the unsigned-to-signed conversion |
| IntValues.ToUnsigned | lilliput-core/src/value/int.rs:265-270 | an unsigned value is returned unchanged; a signed one goes to the signed-to-unsigned conversion |
| IntValues.MixedEquality | lilliput-core/src/value/int.rs:85-104 | a signed and an unsigned value are equal iff the signed one is non-negative with the same value, in either order |
| IntValues.EqualAcrossWidths | lilliput-core/src/value/int.rs:84-105 | values of one signedness are equal across widths, e.g. `42_i8 == 42_i64` |
| IntValues.NegativeBelowUnsigned | lilliput-core/src/value/int.rs:123-140 | a negative signed value is `Less` than every unsigned value, and the unsigned one `Greater` |
| IntValues.CmpAntisymmetric | lilliput-core/src/value/int.rs:123-140 | swapping the arguments reverses the ordering |
| IntValues.CmpEqualIffEq | lilliput-core/src/value/int.rs:81-143 | `cmp` is `Equal` iff `eq` holds |
| IntValues.CmpTransitive | lilliput-core/src/value/int.rs:118-143 | `cmp` is transitive, strictly when either step is strict |
| IntValues.EqIsEquivalence | lilliput-core/src/value/int.rs:81-116 | `eq` is reflexive, symmetric and transitive |
| IntValues.EqualValuesHashAlike | lilliput-core/src/value/int.rs:145-162 | equal values feed the hasher the same key |
| IntValues.ConversionsKeepOwnKind | lilliput-core/src/value/int.rs:255-271 | `to_signed` of a signed value and `to_unsigned` of an unsigned value return it unchanged |

## Left out

- The int, string, map, float, unit and null headers and decoders. Their files are not part of this
  model, so they are parameters (`DecoderSpec.OpaqueKinds`), constrained only to stay within the
  input and to consume the tag byte of a header that decodes. Properties that involve them assume
  more about them, and say so in their requires (`OthersKeepPosInStep`, `OthersSkipLikeDecode`,
  `OthersPrefixSafe`).
- `Marker::detect` and `Marker::validate`, `BytesHeader::LEN_WIDTH_EXPONENT_BITS` and the
  `SeqHeader` constants. Their files are not part of this model; the layout above is assumed.
- The decoder's boolean file is not part of this model. `decode_bool_header`,
  `decode_bool_value_of` and `skip_bool_value_of` are reconstructed as the inverse of the boolean
  encoder: a tag byte carrying the bool marker, whose value bit is the boolean.
- Header encoders other than the boolean one are not part of this model. The header round trips are
  stated against the bytes such an encoder must write: the tag byte and a big-endian length field.
  Which width the encoder picks for a length is not modelled.
- The reader (`SliceReader`) is a byte sequence with an index. Borrowed versus copied slices and
  scratch buffers are memory management, so `decode_bytes_of` and `decode_bytes_buf_of` both return
  the bytes as a value.
- Reader errors carry no position, because the reader's code is not part of this model.
- Error message strings. Only error codes and positions are modelled.
- The writer is a growable buffer. It never fails, so `push_byte` always succeeds; a fixed-capacity
  writer is not modelled.
- `into_reader` and `pos()` are plain accessors: the fields `input`, `index` and `pos` are visible.
- `debug_assert_eq!` checks and `tracing` blocks.
- IntValues.HashKey: the hasher itself and the native byte order of `to_ne_bytes` are left out. The
  model states the 64-bit pattern fed to the hasher.
- IntValues.FromUsize: pointer widths other than 8, 16, 32 and 64 bits (`unimplemented!` in the
  source) are left out.
- IntValues.ToSigned: `UnsignedIntValue::to_signed` and `SignedIntValue::to_unsigned` live in files
  that are not part of this model, so they are parameters, and the model states only the delegation.
- `SignedIntValue`/`UnsignedIntValue` equality and ordering, and `canonicalized`, live in files
  that are not part of this model. They are taken to compare the canonical (widened) values.
- Serde `Serialize`/`Deserialize` and `Debug`/`Display` of integer values, the byte formatting in
  `binary/byte_slice.rs`, and the float transmutes in `lilliput-float`.
