/** Byte strings, Python's big-endian integer conversions and Python slicing. */
module Bytes {

  /** One element of a Python `bytes` value. */
  type Byte = x: int | 0 <= x < 256

  /** A value of a signed 32-bit integer. */
  type Int32 = x: int | -0x8000_0000 <= x < 0x8000_0000

  const TwoTo31: int := 0x8000_0000
  const TwoTo32: int := 0x1_0000_0000

  function Pow256(n: nat): (r: nat)
    ensures r > 0
  {
    if n == 0 then 1 else 256 * Pow256(n - 1)
  }

  lemma {:induction false} Pow256Monotone(m: nat, n: nat)
    requires m <= n
    ensures Pow256(m) <= Pow256(n)
  {
    if m < n {
      Pow256Monotone(m, n - 1);
    }
  }

  lemma Pow256Four()
    ensures Pow256(4) == TwoTo32
  {
  }

  /** `int.from_bytes(s, "big")`: the unsigned big-endian value of `s`, 0 for no bytes. */
  function BigEndian(s: seq<Byte>): (r: nat)
    ensures r < Pow256(|s|)
  {
    if s == [] then 0
    else
      var hi := BigEndian(s[..|s| - 1]);
      assert hi * 256 <= (Pow256(|s| - 1) - 1) * 256;
      hi * 256 + s[|s| - 1]
  }

  /** The value of at most one byte is itself a byte. */
  function ByteValue(s: seq<Byte>): (r: Byte)
    requires |s| <= 1
    ensures s == [] ==> r == 0
    ensures |s| == 1 ==> r == s[0]
  {
    assert s == [] || s[..|s| - 1] == [];
    BigEndian(s)
  }

  /** The `width`-byte big-endian encoding of `n mod 256^width`. */
  function UnsignedBytes(n: nat, width: nat): (r: seq<Byte>)
    ensures |r| == width
  {
    if width == 0 then [] else UnsignedBytes(n / 256, width - 1) + [n % 256]
  }

  lemma {:induction false} BigEndianOfUnsignedBytes(n: nat, width: nat)
    requires n < Pow256(width)
    ensures BigEndian(UnsignedBytes(n, width)) == n
  {
    if width > 0 {
      var s := UnsignedBytes(n, width);
      assert s[..|s| - 1] == UnsignedBytes(n / 256, width - 1);
      BigEndianOfUnsignedBytes(n / 256, width - 1);
    }
  }

  lemma {:induction false} UnsignedBytesOfBigEndian(s: seq<Byte>)
    ensures UnsignedBytes(BigEndian(s), |s|) == s
  {
    if s != [] {
      var init := s[..|s| - 1];
      UnsignedBytesOfBigEndian(init);
      assert BigEndian(s) / 256 == BigEndian(init);
      assert s == init + [s[|s| - 1]];
    }
  }

  /** `struct.unpack(">i", s)`: a signed 32-bit big-endian (two's complement) read of exactly 4 bytes. */
  function Int32BE(s: seq<Byte>): (r: int)
    requires |s| == 4
    ensures -TwoTo31 <= r < TwoTo31
    ensures r >= 0 <==> BigEndian(s) < TwoTo31
  {
    Pow256Four();
    var u := BigEndian(s);
    if u >= TwoTo31 then u - TwoTo32 else u
  }

  /** `struct.pack(">i", v)`: the inverse of Int32BE. */
  function Int32Bytes(v: int): (r: seq<Byte>)
    requires -TwoTo31 <= v < TwoTo31
    ensures |r| == 4
  {
    UnsignedBytes(if v < 0 then v + TwoTo32 else v, 4)
  }

  lemma Int32RoundTrip(v: int)
    requires -TwoTo31 <= v < TwoTo31
    ensures Int32BE(Int32Bytes(v)) == v
  {
    Pow256Four();
    BigEndianOfUnsignedBytes(if v < 0 then v + TwoTo32 else v, 4);
  }

  lemma Int32BytesOfRead(s: seq<Byte>)
    requires |s| == 4
    ensures Int32Bytes(Int32BE(s)) == s
  {
    Pow256Four();
    UnsignedBytesOfBigEndian(s);
  }

  /** Python's normalisation of one slice bound over a sequence of length `n`. */
  function SliceBound(i: int, n: nat): (r: nat)
    ensures r <= n
    ensures 0 <= i <= n ==> r == i
    ensures i < 0 && -i <= n ==> r == n + i
  {
    if i < 0 then (if i + n < 0 then 0 else i + n) else if i > n then n else i
  }

  /** `s[i:j]` with Python's semantics: negative bounds count from the end, bounds are
      clamped to the sequence, and the slice is empty when its start passes its end. */
  function PySlice<T>(s: seq<T>, i: int, j: int): (r: seq<T>)
    ensures 0 <= i <= j <= |s| ==> r == s[i..j]
    ensures |r| <= |s|
    ensures 0 <= i <= j ==> |r| <= j - i
  {
    var lo, hi := SliceBound(i, |s|), SliceBound(j, |s|);
    if lo <= hi then s[lo..hi] else []
  }
}
