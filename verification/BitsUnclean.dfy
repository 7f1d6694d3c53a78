/** Writing bit fields over a buffer that is not zeroed. */
module BitsUnclean {
  import opened Bytes
  import opened Bits
  import opened BitsWrite
  import opened ExpGolomb

  // A bit of the result is set when it is set in either operand.
  lemma {:induction false} OrBit(x: nat, y: nat, n: nat, j: nat)
    requires j < n
    ensures Or(x, y, n) / Pow2(j) % 2 == 1 <==> x / Pow2(j) % 2 == 1 || y / Pow2(j) % 2 == 1
    decreases n
  {
    hide Or;
    OrHalf(x, y, n);
    if j == 0 {
      assert Pow2(0) == 1;
    } else {
      hide Pow2;
      OrBit(x / 2, y / 2, n - 1, j - 1);
      Shifted(x, j);
      Shifted(y, j);
      Shifted(Or(x, y, n), j);
    }
  }

  lemma {:induction false} OrHalf(x: nat, y: nat, n: nat)
    requires n > 0
    ensures Or(x, y, n) / 2 == Or(x / 2, y / 2, n - 1)
    ensures Or(x, y, n) % 2 == 1 <==> x % 2 == 1 || y % 2 == 1
  {
  }

  lemma {:induction false} Shifted(x: nat, j: nat)
    requires j > 0
    ensures x / Pow2(j) == x / 2 / Pow2(j - 1)
  {
    DivDiv(x, 2, Pow2(j - 1));
  }

  lemma {:induction false} OrByteBit(x: byte, y: byte, j: nat)
    requires j < 8
    ensures OrByte(x, y) as nat / Pow2(j) % 2 == 1 <==> x as nat / Pow2(j) % 2 == 1 || y as nat / Pow2(j) % 2 == 1
  {
    hide Or;
    OrBit(x, y, 8, j);
  }

  // In the byte in which a field begins nothing is cleared: a bit is set when it was, or when the field sets it there.
  lemma {:induction false} FirstByte(data: bytes, pos: nat, v: nat, n: nat, j: nat)
    requires Fits(data, pos, n) && v < POW64 && j < 8
    ensures var k, w := pos / 8, v * Pow2(64 - n) % POW64;
      PutField(data, pos, v, n)[k] as nat / Pow2(j) % 2 == 1 <==>
        data[k] as nat / Pow2(j) % 2 == 1 || FirstChunk(w, pos % 8) as nat / Pow2(j) % 2 == 1
  {
    hide OrByte, FirstChunk, Pow2;
    var k, w := pos / 8, v * Pow2(64 - n) % POW64;
    OrByteBit(data[k], FirstChunk(w, pos % 8), j);
    RestBehind(PutFirst(data, pos, w), k + 1, w * Pow2(8 - pos % 8) % POW64, n - (8 - pos % 8), k);
  }

  lemma {:induction false} RestBehind(data: bytes, j: nat, v: nat, n: int, i: nat)
    requires v < POW64 && (n > 0 ==> 8 * j + n <= 8 * |data|) && i < j && i < |data|
    ensures WriteRest(data, j, v, n)[i] == data[i]
    decreases n
  {
    hide HighByte;
    if n > 0 { RestBehind(data[j := HighByte(v)], j + 1, v * 256 % POW64, n - 8, i); }
  }

  // ---------------------------------------------------------------------------
  // Reading back

  // The buffer up to bit `pos`, and zeros from there on.
  function Cleared(data: bytes, pos: nat): (c: bytes)
    ensures |c| == |data|
  {
    seq(|data|, i requires 0 <= i < |data| =>
      if i < pos / 8 then data[i] else if i == pos / 8 then ClearedByte(data[i], 8 - pos % 8) else 0)
  }

  // Without its `m` lowest bits.
  function ClearedByte(x: byte, m: nat): (c: byte)
    ensures c <= x
  {
    if m == 0 then x else 2 * ClearedByte(x / 2, m - 1)
  }

  lemma {:induction false} ClearedHalf(x: byte, m: nat)
    requires m > 0
    ensures ClearedByte(x, m) == 2 * ClearedByte(x / 2, m - 1)
  {
  }

  lemma {:induction false} EvenBit(c: nat)
    ensures 2 * c / Pow2(0) % 2 == 0
  {
    assert Pow2(0) == 1;
  }

  lemma {:induction false} Halved(c: nat)
    ensures 2 * c / 2 == c
  {
  }

  lemma {:induction false} ClearedBit(x: byte, m: nat, j: nat)
    requires j < m
    ensures ClearedByte(x, m) as nat / Pow2(j) % 2 == 0
    decreases m
  {
    hide Pow2, ClearedByte;
    var c := ClearedByte(x / 2, m - 1);
    ClearedHalf(x, m);
    if j == 0 {
      EvenBit(c);
    } else {
      ClearedBit(x / 2, m - 1, j - 1);
      Shifted(2 * c as nat, j);
      Halved(c);
    }
  }

  lemma {:induction false} ClearedMultiple(x: byte, m: nat)
    ensures ClearedByte(x, m) as nat % Pow2(m) == 0
    decreases m
  {
    if m == 0 {
      assert Pow2(0) == 1;
    } else {
      ClearedMultiple(x / 2, m - 1);
      TwiceMultiple(ClearedByte(x / 2, m - 1), Pow2(m - 1));
    }
  }

  lemma {:induction false} TwiceMultiple(y: nat, p: nat)
    requires p > 0
    ensures y % p == 0 ==> 2 * y % (2 * p) == 0
    ensures p == 1 ==> y % p == 0
  {
    if y % p == 0 {
      var q := y / p;
      assert y == q * p;
      Doubled(q, p);
      Division(2 * y, 2 * p, q, 0);
    }
  }

  lemma {:induction false} ClearedClean(data: bytes, pos: nat)
    ensures Clean(Cleared(data, pos), pos)
  {
    hide ClearedByte;
    if pos / 8 < |data| {
      ClearedMultiple(data[pos / 8], 8 - pos % 8);
      assert Pow2(4) == 16 && Pow2(8) == 256;
    }
  }

  lemma {:induction false} RestSame(a: bytes, b: bytes, j: nat, v: nat, n: int, i: nat)
    requires v < POW64 && |a| == |b| && (n > 0 ==> 8 * j + n <= 8 * |a|) && j <= i && 8 * (i - j) < n
    ensures i < |a| && WriteRest(a, j, v, n)[i] == WriteRest(b, j, v, n)[i]
    decreases n
  {
    hide HighByte;
    var c, d := a[j := HighByte(v)], b[j := HighByte(v)];
    if i == j {
      RestBehind(c, j + 1, v * 256 % POW64, n - 8, i);
      RestBehind(d, j + 1, v * 256 % POW64, n - 8, i);
    } else {
      RestSame(c, d, j + 1, v * 256 % POW64, n - 8, i);
    }
  }

  // Behind its first byte a field is the same whatever the buffer held; in that byte what was set stays set.
  lemma {:induction false} FieldBit(data: bytes, pos: nat, v: nat, n: nat, i: nat)
    requires Fits(data, pos, n) && v < POW64 && pos <= i < pos + n
    ensures var d, c := PutField(data, pos, v, n), PutField(Cleared(data, pos), pos, v, n);
      Bit(d, i) == 1 <==> Bit(c, i) == 1 || (i / 8 == pos / 8 && Bit(data, i) == 1)
  {
    hide FirstChunk, PutFirst, WriteRest, Pow2, OrByte, ClearedByte;
    var zero := Cleared(data, pos);
    if i / 8 == pos / 8 {
      hide PutField;
      FirstByte(data, pos, v, n, 7 - i % 8);
      FirstByte(zero, pos, v, n, 7 - i % 8);
      ClearedBit(data[pos / 8], 8 - pos % 8, 7 - i % 8);
    } else {
      var w := v * Pow2(64 - n) % POW64;
      RestSame(PutFirst(data, pos, w), PutFirst(zero, pos, w), pos / 8 + 1, w * Pow2(8 - pos % 8) % POW64,
        n - (8 - pos % 8), i / 8);
    }
  }

  lemma {:induction false} BitsOfValue(a: bytes, b: bytes, off: nat, n: nat)
    requires (n > 0 ==> (off + n - 1) / 8 < |a|) && (n > 0 ==> (off + n - 1) / 8 < |b|)
    ensures BitsValue(a, off, n) == BitsValue(b, off, n) <==> forall i :: off <= i < off + n ==> Bit(a, i) == Bit(b, i)
    decreases n
  {
    hide Bit;
    if n > 0 { BitsOfValue(a, b, off, n - 1); }
  }

  // A field reads back exactly when the one bits left in the rest of its first byte are among those that it sets; on a
  // buffer that is zero from there on it always does.
  lemma {:induction false} ReadsBackIff(data: bytes, pos: nat, v: nat, n: nat)
    requires Fits(data, pos, n) && v < POW64
    ensures var d, c := PutField(data, pos, v, n), PutField(Cleared(data, pos), pos, v, n);
      && BitsValue(c, pos, n) == v % Pow2(n)
      && (BitsValue(d, pos, n) == v % Pow2(n) <==>
          forall i :: pos <= i < pos + n && i / 8 == pos / 8 && Bit(data, i) == 1 ==> Bit(c, i) == 1)
  {
    hide PutField, Bit, BitsValue, Clean, Cleared, Pow2;
    ClearedClean(data, pos);
    PutValue(Cleared(data, pos), pos, v, n);
    var d, c := PutField(data, pos, v, n), PutField(Cleared(data, pos), pos, v, n);
    BitsOfValue(d, c, pos, n);
    forall i | pos <= i < pos + n
      ensures Bit(d, i) == 1 <==> Bit(c, i) == 1 || (i / 8 == pos / 8 && Bit(data, i) == 1)
    {
      FieldBit(data, pos, v, n, i);
    }
  }

  // So a one bit left in the place of the first bit of a field stays, whatever is written.
  lemma {:induction false} StaleBit(data: bytes, pos: nat, v: nat, n: nat)
    requires Fits(data, pos, n) && v < POW64 && Bit(data, pos) == 1
    ensures Bit(PutField(data, pos, v, n), pos) == 1
  {
    hide PutField;
    FirstByte(data, pos, v, n, 7 - pos % 8);
  }
}
