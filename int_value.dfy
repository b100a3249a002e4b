/** Integer values that remember their signedness and width, with equality, ordering and hashing
    defined across both. */
module IntValues {
  import opened Binary
  import opened Errors

  type int8 = x: int | -0x80 <= x < 0x80
  type int16 = x: int | -0x8000 <= x < 0x8000
  type int32 = x: int | -0x8000_0000 <= x < 0x8000_0000
  type int64 = x: int | -0x8000_0000_0000_0000 <= x < 0x8000_0000_0000_0000
  type uint8 = x: int | 0 <= x < 0x100
  type uint16 = x: int | 0 <= x < 0x1_0000
  type uint32 = x: int | 0 <= x < 0x1_0000_0000
  type uint64 = x: int | 0 <= x < 0x1_0000_0000_0000_0000

  datatype SignedIntValue = I8(i8: int8) | I16(i16: int16) | I32(i32: int32) | I64(i64: int64)
  datatype UnsignedIntValue = U8(u8: uint8) | U16(u16: uint16) | U32(u32: uint32) | U64(u64: uint64)

  /** An integer value: signed or unsigned, each at one of four widths. */
  datatype IntValue = Signed(signed: SignedIntValue) | Unsigned(unsigned: UnsignedIntValue)

  datatype Ordering = Less | Equal | Greater

  /** `SignedIntValue::canonicalized`: the value widened to `i64` (sign extension keeps the value). */
  function SignedCanonical(s: SignedIntValue): int64 {
    match s
    case I8(v) => v
    case I16(v) => v
    case I32(v) => v
    case I64(v) => v
  }

  /** `UnsignedIntValue::canonicalized`: the value widened to `u64`. */
  function UnsignedCanonical(u: UnsignedIntValue): uint64 {
    match u
    case U8(v) => v
    case U16(v) => v
    case U32(v) => v
    case U64(v) => v
  }

  function UnsignedWidth(u: UnsignedIntValue): Width {
    match u
    case U8(_) => W8
    case U16(_) => W16
    case U32(_) => W32
    case U64(_) => W64
  }

  /** Rust's `as u64` on an `i64`: the same 64 bits read as unsigned (two's complement). */
  function AsU64(v: int64): uint64 {
    v % 0x1_0000_0000_0000_0000
  }

  /** `Ord::cmp` on two primitive integers. */
  function Compare(x: int, y: int): Ordering {
    if x < y then Less else if x == y then Equal else Greater
  }

  function Reverse(o: Ordering): Ordering {
    match o
    case Less => Greater
    case Equal => Equal
    case Greater => Less
  }

  /** The mathematical integer a value stands for, whatever its signedness and width: the reference
      against which equality, ordering and hashing are stated. */
  function Num(v: IntValue): int {
    match v
    case Signed(s) => SignedCanonical(s)
    case Unsigned(u) => UnsignedCanonical(u)
  }

  /** `is_signed`. */
  function IsSigned(v: IntValue): (r: bool)
    ensures r <==> v.Signed?
    ensures !r ==> Num(v) >= 0
  {
    match v
    case Signed(_) => true
    case Unsigned(_) => false
  }

  // The `From` conversions from the eight primitive integer types.

  function FromI8(v: int8): (r: IntValue)
    ensures r.Signed? && Num(r) == v
  { Signed(I8(v)) }

  function FromI16(v: int16): (r: IntValue)
    ensures r.Signed? && Num(r) == v
  { Signed(I16(v)) }

  function FromI32(v: int32): (r: IntValue)
    ensures r.Signed? && Num(r) == v
  { Signed(I32(v)) }

  function FromI64(v: int64): (r: IntValue)
    ensures r.Signed? && Num(r) == v
  { Signed(I64(v)) }

  function FromU8(v: uint8): (r: IntValue)
    ensures r.Unsigned? && UnsignedWidth(r.unsigned) == W8 && Num(r) == v
  { Unsigned(U8(v)) }

  function FromU16(v: uint16): (r: IntValue)
    ensures r.Unsigned? && UnsignedWidth(r.unsigned) == W16 && Num(r) == v
  { Unsigned(U16(v)) }

  function FromU32(v: uint32): (r: IntValue)
    ensures r.Unsigned? && UnsignedWidth(r.unsigned) == W32 && Num(r) == v
  { Unsigned(U32(v)) }

  function FromU64(v: uint64): (r: IntValue)
    ensures r.Unsigned? && UnsignedWidth(r.unsigned) == W64 && Num(r) == v
  { Unsigned(U64(v)) }

  /** `From<usize>` on a platform whose pointers are `w` wide: the value goes through the unsigned
      type of that width. */
  function FromUsize(w: Width, v: nat): (r: IntValue)
    requires v < Limit(w)
    ensures r.Unsigned? && UnsignedWidth(r.unsigned) == w && Num(r) == v
  {
    match w
    case W8 => FromU8(v)
    case W16 => FromU16(v)
    case W32 => FromU32(v)
    case W64 => FromU64(v)
  }

  /** `From<isize>`: `value as uN` reinterprets the bits at the platform width, so a negative `isize`
      becomes the large unsigned number with the same two's-complement bits. The result is never `Signed`. */
  function FromIsize(w: Width, v: int): (r: IntValue)
    requires -(Limit(w) / 2) <= v < Limit(w) / 2
    ensures r.Unsigned? && UnsignedWidth(r.unsigned) == w
    ensures Num(r) == v % Limit(w)
    ensures v >= 0 ==> Num(r) == v
    ensures v < 0 ==> Num(r) == v + Limit(w)
  {
    match w
    case W8 => FromU8(v % 0x100)
    case W16 => FromU16(v % 0x1_0000)
    case W32 => FromU32(v % 0x1_0000_0000)
    case W64 => FromU64(v % 0x1_0000_0000_0000_0000)
  }

  /** `PartialEq::eq`. Values of one signedness compare their canonical values (so `42_i8` equals
      `42_i64`); a signed and an unsigned value are equal when the signed one is not negative and its
      bits as `u64` equal the unsigned one. */
  function Eq(lhs: IntValue, rhs: IntValue): (r: bool)
    ensures r <==> Num(lhs) == Num(rhs)
  {
    match (lhs, rhs)
    case (Signed(l), Signed(s)) => SignedCanonical(l) == SignedCanonical(s)
    case (Signed(l), Unsigned(u)) =>
      var l := SignedCanonical(l);
      var u := UnsignedCanonical(u);
      if l < 0 then false else AsU64(l) == u
    case (Unsigned(u), Signed(s)) =>
      var u := UnsignedCanonical(u);
      var s := SignedCanonical(s);
      if s < 0 then false else u == AsU64(s)
    case (Unsigned(u), Unsigned(v)) => UnsignedCanonical(u) == UnsignedCanonical(v)
  }

  /** `Ord::cmp`. A negative signed value is below every unsigned value; otherwise a mixed pair is
      compared as `u64`s. */
  function Cmp(lhs: IntValue, rhs: IntValue): (o: Ordering)
    ensures o == Compare(Num(lhs), Num(rhs))
  {
    match (lhs, rhs)
    case (Unsigned(u), Unsigned(v)) => Compare(UnsignedCanonical(u), UnsignedCanonical(v))
    case (Signed(l), Signed(s)) => Compare(SignedCanonical(l), SignedCanonical(s))
    case (Unsigned(u), Signed(s)) =>
      var u := UnsignedCanonical(u);
      var s := SignedCanonical(s);
      if s < 0 then Greater else Compare(u, AsU64(s))
    case (Signed(s), Unsigned(u)) =>
      var s := SignedCanonical(s);
      var u := UnsignedCanonical(u);
      if s < 0 then Less else Compare(AsU64(s), u)
  }

  /** `PartialOrd::partial_cmp`: always defined, and always the total order `Cmp`. */
  function PartialCmp(lhs: IntValue, rhs: IntValue): (r: Option<Ordering>)
    ensures r.Some? && r.value == Compare(Num(lhs), Num(rhs))
  {
    Some(Cmp(lhs, rhs))
  }

  /** The eight bytes `Hash::hash` feeds to the hasher, read as one 64-bit pattern: a non-negative
      signed value is fed as `u64`, the same bytes an equal unsigned value feeds; a negative one
      feeds its `i64` bytes. */
  function HashKey(v: IntValue): (k: uint64)
    ensures k == Num(v) % 0x1_0000_0000_0000_0000
    ensures Num(v) >= 0 ==> k == Num(v)
  {
    match v
    case Unsigned(u) => UnsignedCanonical(u)
    case Signed(s) =>
      // a negative value feeds its `i64` bytes, which are the two's-complement bytes of the `u64`
      // `AsU64(s)`; a non-negative one feeds `s as u64`: both are `AsU64(s)`
      AsU64(SignedCanonical(s))
  }

  /** The error of a failed `try_from` between signed and unsigned integers. */
  datatype Conversion<T> = Converted(value: T) | TryFromIntError

  /** `to_signed`: a signed value is returned unchanged; an unsigned one is handed to
      `UnsignedIntValue::to_signed`, which is not part of this model and is passed in. */
  function ToSigned(v: IntValue, unsignedToSigned: UnsignedIntValue -> Conversion<SignedIntValue>): (r: Conversion<SignedIntValue>)
    ensures v.Signed? ==> r == Converted(v.signed)
    ensures v.Unsigned? ==> r == unsignedToSigned(v.unsigned)
  {
    match v
    case Signed(s) => Converted(s)
    case Unsigned(u) => unsignedToSigned(u)
  }

  /** `to_unsigned`: an unsigned value is returned unchanged; a signed one is handed to
      `SignedIntValue::to_unsigned`, which is not part of this model and is passed in. */
  function ToUnsigned(v: IntValue, signedToUnsigned: SignedIntValue -> Conversion<UnsignedIntValue>): (r: Conversion<UnsignedIntValue>)
    ensures v.Unsigned? ==> r == Converted(v.unsigned)
    ensures v.Signed? ==> r == signedToUnsigned(v.signed)
  {
    match v
    case Signed(s) => signedToUnsigned(s)
    case Unsigned(u) => Converted(u)
  }

  // Properties of equality, ordering and hashing.

  /** A signed and an unsigned value are equal exactly when the signed one is non-negative and has
      the unsigned one's value, in either argument order. */
  lemma MixedEquality(s: SignedIntValue, u: UnsignedIntValue)
    ensures Eq(Signed(s), Unsigned(u)) <==> SignedCanonical(s) >= 0 && SignedCanonical(s) == UnsignedCanonical(u)
    ensures Eq(Unsigned(u), Signed(s)) == Eq(Signed(s), Unsigned(u))
  {
  }

  /** Values of one signedness are equal across widths when their values agree, e.g. `42_i8 == 42_i64`. */
  lemma EqualAcrossWidths(a: int8, b: uint8)
    ensures Eq(FromI8(a), FromI16(a)) && Eq(FromI8(a), FromI32(a)) && Eq(FromI8(a), FromI64(a))
    ensures Eq(FromU8(b), FromU16(b)) && Eq(FromU8(b), FromU32(b)) && Eq(FromU8(b), FromU64(b))
    ensures Eq(FromI64(a), FromU64(b)) <==> a == b
  {
  }

  /** Every negative signed value is `Less` than every unsigned value. */
  lemma NegativeBelowUnsigned(s: SignedIntValue, u: UnsignedIntValue)
    requires SignedCanonical(s) < 0
    ensures Cmp(Signed(s), Unsigned(u)) == Less && Cmp(Unsigned(u), Signed(s)) == Greater
  {
  }

  /** `cmp` is antisymmetric: swapping the arguments reverses the ordering, across signedness too. */
  lemma CmpAntisymmetric(a: IntValue, b: IntValue)
    ensures Cmp(b, a) == Reverse(Cmp(a, b))
  {
  }

  /** `cmp` answers `Equal` exactly when `eq` holds. */
  lemma CmpEqualIffEq(a: IntValue, b: IntValue)
    ensures Cmp(a, b) == Equal <==> Eq(a, b)
  {
  }

  /** `cmp` is transitive, so `Ord` is a total order as Rust requires. */
  lemma CmpTransitive(a: IntValue, b: IntValue, c: IntValue)
    requires Cmp(a, b) != Greater && Cmp(b, c) != Greater
    ensures Cmp(a, c) != Greater
    ensures Cmp(a, b) == Less || Cmp(b, c) == Less ==> Cmp(a, c) == Less
  {
  }

  /** `eq` is an equivalence relation. */
  lemma EqIsEquivalence(a: IntValue, b: IntValue, c: IntValue)
    ensures Eq(a, a)
    ensures Eq(a, b) ==> Eq(b, a)
    ensures Eq(a, b) && Eq(b, c) ==> Eq(a, c)
  {
  }

  /** Equal values feed the hasher the same key, as `Hash` must agree with `Eq`. */
  lemma EqualValuesHashAlike(a: IntValue, b: IntValue)
    requires Eq(a, b)
    ensures HashKey(a) == HashKey(b)
  {
  }

  /** `to_signed` and `to_unsigned` return a value of their own kind unchanged. */
  lemma ConversionsKeepOwnKind(v: IntValue, toS: UnsignedIntValue -> Conversion<SignedIntValue>, toU: SignedIntValue -> Conversion<UnsignedIntValue>)
    ensures IsSigned(v) ==> ToSigned(v, toS) == Converted(v.signed)
    ensures !IsSigned(v) ==> ToUnsigned(v, toU) == Converted(v.unsigned)
  {
  }
}
