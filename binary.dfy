/** Bit widths of the fixed-size integers and the big-endian reading of byte strings. */
module Binary {

  /** The bit widths of Rust's fixed-size integer types (and of `isize`/`usize` on a given platform). */
  datatype Width = W8 | W16 | W32 | W64

  function Bits(w: Width): nat {
    match w
    case W8 => 8
    case W16 => 16
    case W32 => 32
    case W64 => 64
  }

  /** 2 to the power `Bits(w)`: one more than the largest unsigned value of width `w`. */
  function Limit(w: Width): nat {
    match w
    case W8 => 0x100
    case W16 => 0x1_0000
    case W32 => 0x1_0000_0000
    case W64 => 0x1_0000_0000_0000_0000
  }

  /** 256 to the power `k`: the number of distinct values of `k` bytes. */
  function Pow256(k: nat): (r: nat)
    ensures r >= 1
  {
    if k == 0 then 1 else 256 * Pow256(k - 1)
  }

  /** The value of a big-endian byte string (most significant byte first). */
  function BigEndian(s: seq<bv8>): nat
  {
    if s == [] then 0 else BigEndian(s[..|s| - 1]) * 256 + s[|s| - 1] as nat
  }

  /** `k` zero bytes. */
  function Zeros(k: nat): (z: seq<bv8>)
    ensures |z| == k && forall i :: 0 <= i < k ==> z[i] == 0
  {
    seq(k, _ => 0)
  }

  /** A big-endian value of `k` bytes is smaller than 256^k, so it always fits the unsigned integer of that many bytes. */
  lemma {:induction false} BigEndianBound(s: seq<bv8>)
    ensures BigEndian(s) < Pow256(|s|)
  {
    if s != [] {
      var init := s[..|s| - 1];
      BigEndianBound(init);
      var p := Pow256(|init|);
      assert BigEndian(init) <= p - 1;
      assert BigEndian(init) * 256 <= (p - 1) * 256;
      assert BigEndian(s) <= (p - 1) * 256 + 255;
    }
  }

  lemma {:induction false} Pow256Monotone(j: nat, k: nat)
    requires j <= k
    ensures Pow256(j) <= Pow256(k)
  {
    if j < k {
      Pow256Monotone(j, k - 1);
    }
  }

  /** Eight bytes hold every value below 2^64, the limit of a 64-bit `usize`. */
  lemma EightBytesFit64(s: seq<bv8>)
    requires |s| <= 8
    ensures BigEndian(s) < Limit(W64)
  {
    BigEndianBound(s);
    Pow256Monotone(|s|, 8);
    assert Pow256(8) == Limit(W64);
  }

  lemma {:induction false} BigEndianOfZeros(k: nat)
    ensures BigEndian(Zeros(k)) == 0
  {
    if k > 0 {
      assert Zeros(k)[..k - 1] == Zeros(k - 1);
      BigEndianOfZeros(k - 1);
    }
  }

  /** Left-padding with zero bytes does not change a big-endian value: reading `width` bytes into the
      tail of a zeroed 8-byte buffer and converting all 8 gives the value of the `width` bytes alone. */
  lemma {:induction false} BigEndianZeroPadding(k: nat, s: seq<bv8>)
    ensures BigEndian(Zeros(k) + s) == BigEndian(s)
  {
    if s == [] {
      assert Zeros(k) + s == Zeros(k);
      BigEndianOfZeros(k);
    } else {
      var t := Zeros(k) + s;
      var init := s[..|s| - 1];
      assert t[..|t| - 1] == Zeros(k) + init;
      assert t[|t| - 1] == s[|s| - 1];
      BigEndianZeroPadding(k, init);
    }
  }

  /** A value of `w` bytes is its high `w - 1` bytes times 256 plus its low byte. */
  lemma SplitLowByte(n: nat, w: nat)
    requires 0 < w && n < Pow256(w)
    ensures n == (n / 256) * 256 + n % 256 && n / 256 < Pow256(w - 1)
  {
  }

  /** The byte whose value is `x`. Counting up to `x` gives the solver the byte's value directly,
      without a conversion from integers to bit-vectors. */
  function ByteOf(x: nat): (b: bv8)
    requires x < 256
    ensures b as int == x
  {
    if x == 0 then 0 else ByteOf(x - 1) + 1
  }

  /** The `w`-byte big-endian form of `n`, most significant byte first. */
  function ToBigEndian(n: nat, w: nat): (s: seq<bv8>)
    requires n < Pow256(w)
    ensures |s| == w
  {
    if w == 0 then []
    else
      SplitLowByte(n, w);
      ToBigEndian(n / 256, w - 1) + [ByteOf(n % 256)]
  }

  /** Appending a low byte multiplies the value by 256 and adds the byte. */
  lemma BigEndianAppend(init: seq<bv8>, last: bv8)
    ensures BigEndian(init + [last]) == BigEndian(init) * 256 + last as nat
  {
    var s := init + [last];
    assert s[..|s| - 1] == init;
  }

  /** `ToBigEndian` is the inverse of `BigEndian` for every value that fits its width. */
  lemma {:induction false} BigEndianOfToBigEndian(n: nat, w: nat)
    requires n < Pow256(w)
    ensures BigEndian(ToBigEndian(n, w)) == n
  {
    if w > 0 {
      SplitLowByte(n, w);
      var high, low := n / 256, n % 256;
      var init := ToBigEndian(high, w - 1);
      var last := ByteOf(low);
      assert ToBigEndian(n, w) == init + [last];
      BigEndianOfToBigEndian(high, w - 1);
      BigEndianAppend(init, last);
    }
  }
}
