/** Bytes, words and bits as the codecs see them. */
module Bytes {
  type byte = x: int | 0 <= x < 256
  type bytes = seq<byte>

  const POW32 := 0x1_0000_0000
  const POW64 := 0x1_0000_0000_0000_0000

  function Pow2(n: nat): (p: nat)
    ensures p > 0
  {
    if n == 0 then 1 else 2 * Pow2(n - 1)
  }

  // Bit `i` of a byte string, counted from the most significant bit of the first byte.
  function Bit(data: bytes, i: nat): (b: int)
    requires i / 8 < |data|
    ensures b == 0 || b == 1
  {
    (data[i / 8] / Pow2(7 - i % 8)) % 2
  }

  function Be16(v: nat): (b: bytes)
    requires v < 0x1_0000
    ensures |b| == 2
  {
    [v / 0x100, v % 0x100]
  }

  function Be24(v: nat): (b: bytes)
    requires v < 0x100_0000
    ensures |b| == 3
  {
    [v / 0x1_0000, v / 0x100 % 0x100, v % 0x100]
  }

  function Be32(v: nat): (b: bytes)
    requires v < POW32
    ensures |b| == 4
  {
    [v / 0x100_0000, v / 0x1_0000 % 0x100, v / 0x100 % 0x100, v % 0x100]
  }

  function Read16(s: bytes): (v: nat)
    requires |s| == 2
    ensures v < 0x1_0000
  {
    s[0] as int * 0x100 + s[1] as int
  }

  function Read24(s: bytes): (v: nat)
    requires |s| == 3
    ensures v < 0x100_0000
  {
    s[0] as int * 0x1_0000 + s[1] as int * 0x100 + s[2] as int
  }

  function Read32(s: bytes): (v: nat)
    requires |s| == 4
    ensures v < POW32
  {
    s[0] as int * 0x100_0000 + s[1] as int * 0x1_0000 + s[2] as int * 0x100 + s[3] as int
  }

  lemma {:induction false} Be16RoundTrip(v: nat)
    requires v < 0x1_0000
    ensures Read16(Be16(v)) == v
  {
  }

  lemma {:induction false} Be24RoundTrip(v: nat)
    requires v < 0x100_0000
    ensures Read24(Be24(v)) == v
  {
  }

  lemma {:induction false} Be32RoundTrip(v: nat)
    requires v < POW32
    ensures Read32(Be32(v)) == v
  {
    var hi, low := v / 0x1_0000, v % 0x1_0000;
    TopByte(v);
    MidByte(v);
    assert v % 0x100 == low % 0x100;
    assert hi == hi / 0x100 * 0x100 + hi % 0x100 && low == low / 0x100 * 0x100 + low % 0x100;
  }

  lemma {:induction false} TopByte(v: nat)
    ensures v / 0x100_0000 == v / 0x1_0000 / 0x100
  {
  }

  lemma {:induction false} MidByte(v: nat)
    ensures v / 0x100 % 0x100 == v % 0x1_0000 / 0x100
  {
    var hi, low := v / 0x1_0000, v % 0x1_0000;
    var a, b := low / 0x100, low % 0x100;
    assert v == (hi * 0x100 + a) * 0x100 + b;
    assert v / 0x100 == hi * 0x100 + a && a < 0x100;
  }

  // A buffer after `x` was written at `at`.
  function Written(before: bytes, at: nat, x: bytes): (after: bytes)
    requires at + |x| <= |before|
    ensures |after| == |before|
  {
    before[..at] + x + before[at + |x|..]
  }

  lemma {:induction false} Regroup<T>(a: seq<T>, b: seq<T>, c: seq<T>)
    ensures a + (b + c) == (a + b) + c
  {
  }
}
