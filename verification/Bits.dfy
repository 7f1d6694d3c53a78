/** The n-bit cursor: reading and writing fields that straddle bytes. */
module Bits {
  import opened Bytes
  import opened ExpGolomb

  // ---------------------------------------------------------------------------
  // Powers, quotients and remainders

  lemma {:induction false} PowAdd(a: nat, b: nat)
    ensures Pow2(a + b) == Pow2(a) * Pow2(b)
    decreases b
  {
    if b > 0 { PowAdd(a, b - 1); }
  }

  lemma {:induction false} Pow64()
    ensures Pow2(8) == 256 && Pow2(64) == POW64
  {
    assert Pow2(4) == 16;
    PowAdd(4, 4);
    PowAdd(8, 8);
    PowAdd(16, 16);
    PowAdd(32, 32);
  }

  lemma {:induction false} Division(a: nat, d: nat, q: nat, r: nat)
    requires a == q * d + r && r < d
    ensures a / d == q && a % d == r
  {
    var k := a / d - q;
    assert a == (a / d) * d + a % d;
    assert k * d == r - a % d;
    Scaled(k, d);
  }

  lemma {:induction false} Scaled(k: int, d: nat)
    ensures (k > 0 ==> k * d >= d) && (k < 0 ==> k * d <= -(d as int))
    decreases if k < 0 then -k else k
  {
    if k > 1 {
      Scaled(k - 1, d);
    } else if k < -1 {
      Scaled(k + 1, d);
    }
  }

  lemma {:induction false} Spread(q: nat, b: nat, r: nat, a: nat)
    ensures (q * b + r) * a == q * (a * b) + r * a
  {
  }

  lemma {:induction false} Below(r: nat, b: nat, a: nat, s: nat)
    requires r < b && s < a
    ensures r * a + s < a * b
  {
    Scaled(b - r, a);
  }

  // Dividing by `a` and then by `b`, with quotients and remainders named.
  lemma {:induction false} Twice(x: nat, a: nat, b: nat, s: nat, t: nat, r: nat)
    requires x == (t * b + r) * a + s && s < a && r < b
    ensures a * b > 0 && x / (a * b) == t && x % (a * b) == r * a + s
  {
    Spread(t, b, r, a);
    Below(r, b, a, s);
    Division(x, a * b, t, r * a + s);
  }

  lemma {:induction false} Quotient(x: nat, a: nat) returns (q: nat, r: nat)
    requires a > 0
    ensures q == x / a && r == x % a && r < a && x == q * a + r
  {
    q, r := x / a, x % a;
  }

  lemma {:induction false} DivDiv(x: nat, a: nat, b: nat)
    requires a > 0 && b > 0
    ensures a * b > 0 && x / a / b == x / (a * b)
  {
    var y, s := Quotient(x, a);
    var t, r := Quotient(y, b);
    Twice(x, a, b, s, t, r);
  }

  lemma {:induction false} Halve(y: nat, p: nat)
    requires p > 0
    ensures y % (2 * p) == 2 * (y / 2 % p) + y % 2
  {
    var h := y / 2;
    assert y == (h / p) * (2 * p) + (2 * (h % p) + y % 2) by { assert h == (h / p) * p + h % p; }
    Division(y, 2 * p, h / p, 2 * (h % p) + y % 2);
  }

  // ---------------------------------------------------------------------------
  // Fields of bits

  // Bits `o` up to `o + m` of one byte.
  function Part(x: byte, o: nat, m: nat): (v: nat)
    requires o + m <= 8
  {
    x as nat / Pow2(8 - o - m) % Pow2(m)
  }

  lemma {:induction false} LastBit(data: bytes, off: nat, n: nat)
    requires n > 0 && (off + n - 1) / 8 < |data|
    ensures n > 1 ==> (off + n - 2) / 8 < |data|
    ensures BitsValue(data, off, n) == 2 * BitsValue(data, off, n - 1) + Bit(data, off + n - 1)
  {
    hide Bit;
  }

  lemma {:induction false} NextPower(n: nat)
    ensures Pow2(n + 1) == 2 * Pow2(n)
  {
  }

  lemma {:induction false} PartHalf(x: nat, low: nat, wide: nat, p: nat, q: nat)
    requires low > 0 && p > 0 && wide == low * 2 && q == 2 * p
    ensures wide > 0 && q > 0 && x / low % q == 2 * (x / wide % p) + x / low % 2
  {
    DivDiv(x, low, 2);
    Halve(x / low, p);
  }

  lemma {:induction false} PartStep(x: byte, o: nat, m: nat)
    requires m > 0 && o + m <= 8
    ensures Part(x, o, m) == 2 * Part(x, o, m - 1) + x as nat / Pow2(8 - o - m) % 2
  {
    hide Pow2;
    NextPower(8 - o - m);
    NextPower(m - 1);
    var wide := Pow2(8 - o - (m - 1));
    assert wide == Pow2(8 - o - m + 1);
    PartHalf(x, Pow2(8 - o - m), wide, Pow2(m - 1), Pow2(m));
  }

  lemma {:induction false} BitInByte(data: bytes, k: nat, j: nat)
    requires k < |data| && j < 8
    ensures (8 * k + j) / 8 < |data| && Bit(data, 8 * k + j) == data[k] as nat / Pow2(7 - j) % 2
  {
    assert (8 * k + j) / 8 == k && (8 * k + j) % 8 == j;
    hide Pow2;
  }

  lemma {:induction false} NoBits(data: bytes, off: nat, x: byte, o: nat)
    requires o <= 8
    ensures BitsValue(data, off, 0) == 0 && Part(x, o, 0) == 0
  {
  }

  lemma {:induction false} InByte(data: bytes, k: nat, o: nat, m: nat)
    requires k < |data| && o + m <= 8
    ensures m > 0 ==> (8 * k + o + m - 1) / 8 < |data|
    ensures BitsValue(data, 8 * k + o, m) == Part(data[k], o, m)
    decreases m
  {
    hide BitsValue, Part, Pow2, Bit;
    if m > 0 {
      BitInByte(data, k, o + m - 1);
      LastBit(data, 8 * k + o, m);
      InByte(data, k, o, m - 1);
      PartStep(data[k], o, m);
    } else {
      NoBits(data, 8 * k + o, data[k], o);
    }
  }

  lemma {:induction false} Split(data: bytes, off: nat, a: nat, b: nat)
    requires a + b > 0 ==> (off + a + b - 1) / 8 < |data|
    ensures a > 0 ==> (off + a - 1) / 8 < |data|
    ensures BitsValue(data, off, a + b) == BitsValue(data, off, a) * Pow2(b) + BitsValue(data, off + a, b)
    decreases b
  {
    hide Bit;
    if b > 0 {
      assert Pow2(b) == 2 * Pow2(b - 1);
      hide BitsValue, Pow2;
      LastBit(data, off, a + b);
      LastBit(data, off + a, b);
      Split(data, off, a, b - 1);
      Doubled(BitsValue(data, off, a), Pow2(b - 1));
    }
  }

  lemma {:induction false} Doubled(x: nat, p: nat)
    ensures x * (2 * p) == 2 * (x * p)
  {
  }

  // Only the bytes that hold the field matter.
  lemma {:induction false} SameBits(a: bytes, b: bytes, off: nat, n: nat)
    requires |a| == |b| && (n > 0 ==> (off + n - 1) / 8 < |a|)
    requires forall i :: off / 8 <= i < |a| && 8 * i < off + n ==> a[i] == b[i]
    ensures BitsValue(a, off, n) == BitsValue(b, off, n)
    decreases n
  {
    if n > 0 { SameBits(a, b, off, n - 1); }
  }

  lemma {:induction false} ModDiv(x: nat, a: nat, b: nat)
    requires a > 0 && b > 0
    ensures a * b > 0 && x % (a * b) / a == x / a % b
  {
    var y, s := Quotient(x, a);
    var t, r := Quotient(y, b);
    Twice(x, a, b, s, t, r);
    Division(r * a + s, a, r, s);
  }

  // What the rest of a byte holds.
  lemma {:induction false} RestOfByte(data: bytes, pos: nat)
    requires pos / 8 < |data|
    ensures (pos + 7 - pos % 8) / 8 < |data|
    ensures BitsValue(data, pos, 8 - pos % 8) == data[pos / 8] as nat % Pow2(8 - pos % 8)
  {
    var k, o := pos / 8, pos % 8;
    InByte(data, k, o, 8 - o);
    assert Pow2(0) == 1 && pos == 8 * k + o;
    hide Pow2, BitsValue;
  }

  lemma {:induction false} MiddleOfByte(data: bytes, pos: nat, n: nat)
    requires pos / 8 < |data| && 0 < n <= 8 - pos % 8
    ensures (pos + n - 1) / 8 < |data|
    ensures BitsValue(data, pos, n) == data[pos / 8] as nat % Pow2(8 - pos % 8) / Pow2(8 - pos % 8 - n)
  {
    hide Pow2, BitsValue;
    var k, o := pos / 8, pos % 8;
    InByte(data, k, o, n);
    PowAdd(8 - o - n, n);
    ModDiv(data[k] as nat, Pow2(8 - o - n), Pow2(n));
    assert pos == 8 * k + o;
  }

  lemma {:induction false} WholeByte(data: bytes, k: nat)
    requires k < |data|
    ensures (8 * k + 7) / 8 < |data| && BitsValue(data, 8 * k, 8) == data[k]
  {
    hide BitsValue;
    RestOfByte(data, 8 * k);
    Pow64();
    hide Pow2;
    assert 8 * k / 8 == k && 8 * k % 8 == 0;
  }

  lemma {:induction false} NextByte(data: bytes, pos: nat, c: nat)
    requires (pos + c) % 8 == 0 && (pos + c) / 8 < |data| && c > 0
    ensures (pos + c - 1) / 8 < |data| && (pos + c + 7) / 8 < |data|
    ensures BitsValue(data, pos, c + 8) == BitsValue(data, pos, c) * 256 + data[(pos + c) / 8]
  {
    hide Pow2, BitsValue;
    Split(data, pos, c, 8);
    WholeByte(data, (pos + c) / 8);
    Pow64();
  }

  lemma {:induction false} FrontOfByte(data: bytes, k: nat, n: nat)
    requires k < |data| && 0 < n < 8
    ensures (8 * k + n - 1) / 8 < |data| && BitsValue(data, 8 * k, n) == data[k] as nat / Pow2(8 - n)
  {
    hide BitsValue;
    MiddleOfByte(data, 8 * k, n);
    Pow64();
    hide Pow2;
    assert 8 * k / 8 == k && 8 * k % 8 == 0;
  }

  lemma {:induction false} StartOfByte(data: bytes, pos: nat, c: nat, n: nat)
    requires (pos + c) % 8 == 0 && (pos + c) / 8 < |data| && c > 0 && 0 < n < 8
    ensures (pos + c - 1) / 8 < |data| && (pos + c + n - 1) / 8 < |data|
    ensures BitsValue(data, pos, c + n) == BitsValue(data, pos, c) * Pow2(n) + data[(pos + c) / 8] as nat / Pow2(8 - n)
  {
    hide Pow2, BitsValue;
    Split(data, pos, c, n);
    FrontOfByte(data, (pos + c) / 8, n);
  }

  // ---------------------------------------------------------------------------
  // Reading bit by bit

  // The cursor: position in bits, and the error that was met.
  datatype Cursor = Cursor(pos: nat, error: int)

  datatype ReadResult = ReadResult(value: nat, after: Cursor)

  function ReadBit(data: bytes, c: Cursor): ReadResult {
    if c.pos >= 8 * |data| then ReadResult(0, c.(error := -1)) else ReadResult(Bit(data, c.pos), c.(pos := c.pos + 1))
  }

  // `n` single bits, the first the most significant.
  function ReadBits(data: bytes, c: Cursor, n: nat): ReadResult
    decreases n
  {
    if n == 0 then ReadResult(0, c)
    else
      var r := ReadBits(data, c, n - 1);
      var b := ReadBit(data, r.after);
      ReadResult(2 * r.value + b.value, b.after)
  }

  // What reading `n` bits at once gives.
  function ReadField(data: bytes, c: Cursor, n: int): ReadResult
    requires n != 0
  {
    if c.pos + n > 8 * |data| || n > 64 || n < 0 then ReadResult(0, c.(error := -1))
    else ReadResult(BitsValue(data, c.pos, n), c.(pos := c.pos + n))
  }

  lemma {:induction false} BitsOneByOne(data: bytes, c: Cursor, n: nat)
    requires c.pos + n <= 8 * |data|
    ensures ReadBits(data, c, n) == ReadResult(BitsValue(data, c.pos, n), c.(pos := c.pos + n))
    decreases n
  {
    hide Bit;
    if n > 0 { BitsOneByOne(data, c, n - 1); }
  }

  lemma {:induction false} BitsPastEnd(data: bytes, c: Cursor, n: nat)
    ensures var r := ReadBits(data, c, n).after; r.pos >= c.pos && (c.pos < 8 * |data| && n > 0 ==> r.pos > c.pos)
    ensures c.pos >= 8 * |data| ==> ReadBits(data, c, n) == if n == 0 then ReadResult(0, c) else ReadResult(0, c.(error := -1))
    decreases n
  {
    hide Bit;
    if n > 0 { BitsPastEnd(data, c, n - 1); }
  }

  // A field read at once is its bits read one by one, value, position and error, exactly when all bits are there or
  // none is: past the end, single reads consume what is left, a field read nothing.
  lemma {:induction false} FieldIsBits(data: bytes, c: Cursor, n: nat)
    requires 0 < n <= 64
    ensures ReadField(data, c, n) == ReadBits(data, c, n) <==> c.pos + n <= 8 * |data| || c.pos >= 8 * |data|
  {
    hide ReadBits;
    if c.pos + n <= 8 * |data| { BitsOneByOne(data, c, n); } else { BitsPastEnd(data, c, n); }
  }

  // Two bits from the last bit of a byte on: read one by one, the one that is there comes first, and at once nothing.
  lemma {:induction false} FieldAcrossEnd(x: byte)
    ensures ReadBits([x], Cursor(7, 0), 2) == ReadResult(2 * (x % 2), Cursor(8, -1))
    ensures ReadField([x], Cursor(7, 0), 2) == ReadResult(0, Cursor(7, -1))
  {
    BitInByte([x], 0, 7);
    assert Pow2(0) == 1;
    hide Bit, Pow2;
    var c := Cursor(7, 0);
    assert ReadBits([x], c, 0) == ReadResult(0, c);
    assert ReadBits([x], c, 1) == ReadResult(x % 2, Cursor(8, 0));
  }
}
