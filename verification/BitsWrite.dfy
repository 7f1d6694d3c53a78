/** Writing fields of bits into a zeroed buffer, at any alignment, and reading them back. */
module BitsWrite {
  import opened Bytes
  import opened ExpGolomb
  import opened Bits

  // Bitwise or of the low `n` bits.
  function Or(x: nat, y: nat, n: nat): (z: nat)
    ensures z < Pow2(n)
  {
    if n == 0 then 0 else 2 * Or(x / 2, y / 2, n - 1) + if x % 2 == 1 || y % 2 == 1 then 1 else 0
  }

  function OrByte(x: byte, y: byte): (z: byte) {
    assert Pow2(4) == 16;
    assert Pow2(8) == 256;
    Or(x, y, 8)
  }

  lemma {:induction false} OrAdds(x: nat, y: nat, m: nat, n: nat)
    requires x % Pow2(m) == 0 && y < Pow2(m) && m <= n && x < Pow2(n)
    ensures Or(x, y, n) == x + y
    decreases n
  {
    if n > 0 {
      if m > 0 {
        Halve(x, Pow2(m - 1));
        OrAdds(x / 2, y / 2, m - 1, n - 1);
      } else {
        OrAdds(x / 2, 0, 0, n - 1);
      }
    }
  }

  // The high byte of the 64-bit word goes out first.
  function HighByte(v: nat): byte
    requires v < POW64
  {
    v / 0x100_0000_0000_0000
  }

  function WriteRest(data: bytes, j: nat, v: nat, n: int): (d: bytes)
    requires v < POW64 && (n > 0 ==> 8 * j + n <= 8 * |data|)
    ensures |d| == |data|
    decreases n
  {
    if n <= 0 then data else WriteRest(data[j := HighByte(v)], j + 1, v * 256 % POW64, n - 8)
  }

  predicate Fits(data: bytes, pos: nat, n: nat) { 0 < n <= 64 && pos + n <= 8 * |data| }

  lemma {:induction false} FirstPart(w: nat, o: nat)
    requires w < POW64 && o < 8
    ensures 0 <= w / Pow2(56 + o) < Pow2(8 - o) <= 256
  {
    Pow64();
    PowAdd(56 + o, 8 - o);
    PowAdd(8 - o, o);
    DivBelow(w, Pow2(56 + o), Pow2(8 - o));
    assert Pow2(8 - o) * 1 <= Pow2(8 - o) * Pow2(o);
  }

  lemma {:induction false} DivBelow(x: nat, a: nat, b: nat)
    requires a > 0 && x < a * b
    ensures 0 <= x / a < b
  {
    Scaled(x / a - b, a);
    assert (x / a - b) * a == x / a * a - b * a;
  }

  // What of the word goes into the rest of the first byte, which starts at bit `o`.
  function FirstChunk(w: nat, o: nat): (b: byte)
    requires w < POW64 && o < 8
    ensures b as nat < Pow2(8 - o)
  {
    FirstPart(w, o);
    w / Pow2(56 + o)
  }

  function PutFirst(data: bytes, pos: nat, w: nat): (d: bytes)
    requires w < POW64 && pos / 8 < |data|
    ensures |d| == |data|
  {
    data[pos / 8 := OrByte(data[pos / 8], FirstChunk(w, pos % 8))]
  }

  // The buffer after the low `n` bits of `v` were written at bit `pos`.
  function PutField(data: bytes, pos: nat, v: nat, n: nat): (d: bytes)
    requires Fits(data, pos, n) && v < POW64
    ensures |d| == |data|
  {
    var c, w := 8 - pos % 8, v * Pow2(64 - n) % POW64;
    WriteRest(PutFirst(data, pos, w), pos / 8 + 1, w * Pow2(c) % POW64, n - c)
  }

  // ---------------------------------------------------------------------------
  // What a write leaves

  // Every bit from `pos` on is zero.
  predicate Clean(data: bytes, pos: nat) {
    && (pos % 8 != 0 && pos / 8 < |data| ==> data[pos / 8] as nat % Pow2(8 - pos % 8) == 0)
    && forall i :: (pos + 7) / 8 <= i < |data| ==> data[i] == 0
  }

  lemma {:induction false} ModScale(v: nat, a: nat, b: nat)
    requires a > 0 && b > 0
    ensures b * a > 0 && v * b % (b * a) == v % a * b
  {
    var q, r := v / a, v % a;
    Spread(q, a, r, b);
    Below(r, a, b, 0);
    assert v == q * a + r;
    Division(v * b, b * a, q, r * b);
  }

  lemma {:induction false} ShiftOut(w: nat, a: nat, b: nat)
    requires a > 0 && b > 0 && w < a * b
    ensures w / a * (a * b) + w * b % (a * b) == w * b
  {
    var d := b * a;
    assert a * b == d;
    ModScale(w, a, b);
    var q, r := w / a, w % a;
    Spread(q, a, r, b);
    assert w == q * a + r;
    assert (q * a + r) * b == w * b;
  }

  // The bytes that take what is left of a word: bits read so far and bits left over keep their sum.
  lemma {:induction false} RestWrites(data: bytes, pos: nat, c: nat, v: nat, n: int) returns (k: nat, left: nat)
    requires (pos + c) % 8 == 0 && c > 0 && (pos + c - 1) / 8 < |data|
    requires v < POW64 && (n > 0 ==> pos + c + n <= 8 * |data|)
    ensures k == (if n <= 0 then 0 else (n + 7) / 8) && pos + c + 8 * k <= 8 * |data| && left < POW64
    ensures var d := WriteRest(data, (pos + c) / 8, v, n);
      && BitsValue(d, pos, c + 8 * k) * POW64 + left == (BitsValue(data, pos, c) * POW64 + v) * Pow2(8 * k)
      && forall i :: 0 <= i < |data| && (i < (pos + c) / 8 || (pos + c) / 8 + k <= i) ==> d[i] == data[i]
    decreases n
  {
    hide BitsValue, Pow2;
    if n <= 0 {
      k, left := 0, v;
      NoShift();
    } else {
      var j := (pos + c) / 8;
      var d1 := data[j := HighByte(v)];
      var v1 := v * 256 % POW64;
      NextByte(d1, pos, c);
      SameBits(d1, data, pos, c);
      ShiftOut(v, 0x100_0000_0000_0000, 256);
      var b := BitsValue(data, pos, c);
      assert BitsValue(d1, pos, c + 8) * POW64 + v1 == (b * POW64 + v) * 256;
      var k1;
      k1, left := RestWrites(d1, pos, c + 8, v1, n - 8);
      k := k1 + 1;
      MoreShift(b * POW64 + v, k1);
    }
  }

  lemma {:induction false} NoShift()
    ensures Pow2(0) == 1
  {
  }

  lemma {:induction false} MoreShift(x: nat, k: nat)
    ensures x * 256 * Pow2(8 * k) == x * Pow2(8 * (k + 1))
  {
    Pow64();
    PowAdd(8, 8 * k);
    hide Pow2;
    assert x * 256 * Pow2(8 * k) == x * (256 * Pow2(8 * k));
  }

  // The low `n` bits of `v`, moved to the front of a 64-bit word.
  lemma {:induction false} Justified(v: nat, n: nat)
    requires 0 < n <= 64
    ensures v * Pow2(64 - n) % POW64 == v % Pow2(n) * Pow2(64 - n)
  {
    Pow64();
    PowAdd(64 - n, n);
    hide Pow2;
    ModScale(v, Pow2(n), Pow2(64 - n));
  }

  lemma {:induction false} Cancel(x: nat, left: nat, y: nat)
    requires x * POW64 + left == y * POW64 && left < POW64
    ensures x == y
  {
  }

  lemma {:induction false} AddBelow(x: nat, y: nat, p: nat)
    requires y < p && x % p == 0
    ensures (x + y) % p == y && (x + y) / p == x / p
  {
    assert x == x / p * p;
    Division(x + y, p, x / p, y);
  }

  // In the first byte, the bits in front of `pos` stay.
  lemma {:induction false} FirstKeeps(data: bytes, pos: nat, w: nat)
    requires pos / 8 < |data| && Clean(data, pos) && w < POW64
    ensures data[pos / 8] as nat % Pow2(8 - pos % 8) == 0
    ensures PutFirst(data, pos, w)[pos / 8] as nat == data[pos / 8] as nat + FirstChunk(w, pos % 8)
  {
    var o, k := pos % 8, pos / 8;
    assert data[k] as nat % Pow2(8 - o) == 0 by { if o == 0 { assert (pos + 7) / 8 == k; } }
    Pow64();
    hide FirstChunk;
    OrAdds(data[k], FirstChunk(w, o), 8 - o, 8);
  }

  // The rest of it takes the first bits of the word.
  lemma {:induction false} FirstTakes(data: bytes, pos: nat, w: nat)
    requires pos / 8 < |data| && Clean(data, pos) && w < POW64
    ensures var c := 8 - pos % 8;
      && (pos + c - 1) / 8 < |data|
      && BitsValue(PutFirst(data, pos, w), pos, c) == FirstChunk(w, pos % 8)
  {
    var x, y, p := data[pos / 8] as nat, FirstChunk(w, pos % 8) as nat, Pow2(8 - pos % 8);
    FirstKeeps(data, pos, w);
    RestOfByte(PutFirst(data, pos, w), pos);
    hide Pow2, BitsValue, PutFirst, FirstChunk, Clean;
    AddBelow(x, y, p);
  }

  lemma {:induction false} ChunkAndRest(w: nat, o: nat)
    requires w < POW64 && o < 8
    ensures FirstChunk(w, o) as nat * POW64 + w * Pow2(8 - o) % POW64 == w * Pow2(8 - o)
  {
    Pow64();
    PowAdd(56 + o, 8 - o);
    hide Pow2;
    ShiftOut(w, Pow2(56 + o), Pow2(8 - o));
  }

  lemma {:induction false} Shifts(u: nat, n: nat, c: nat, k: nat)
    requires n <= 64 && n <= c + 8 * k
    ensures u * Pow2(64 - n) * Pow2(c) * Pow2(8 * k) == u * Pow2(c + 8 * k - n) * POW64
  {
    PowAdd(c, 8 * k);
    PowAdd(64 - n, c + 8 * k);
    PowAdd(c + 8 * k - n, 64);
    Pow64();
    assert 64 - n + (c + 8 * k) == c + 8 * k - n + 64;
    var a, b, d, e := Pow2(64 - n), Pow2(c), Pow2(8 * k), Pow2(c + 8 * k - n);
    assert a * (b * d) == e * POW64;
    hide Pow2;
    Grouped(u, a, b, d, e);
  }

  lemma {:induction false} Grouped(u: nat, a: nat, b: nat, d: nat, e: nat)
    requires a * (b * d) == e * POW64
    ensures u * a * b * d == u * e * POW64
  {
    assert u * a * b * d == u * (a * (b * d));
  }

  lemma {:induction false} Unique(a: nat, t: nat, u: nat, p: nat)
    requires a * p + t == u * p && t < p
    ensures a == u && t == 0
  {
    Scaled(a - u, p);
    assert (a - u) * p == a * p - u * p;
  }

  // How many bytes behind the first one a field takes.
  function More(pos: nat, n: nat): (k: nat)
    requires n > 0
    ensures n <= 8 - pos % 8 + 8 * k < n + 8
  {
    if n <= 8 - pos % 8 then 0 else (n - (8 - pos % 8) + 7) / 8
  }

  lemma {:induction false} NextAligned(pos: nat)
    ensures (pos + (8 - pos % 8)) % 8 == 0 && (pos + (8 - pos % 8)) / 8 == pos / 8 + 1
  {
  }

  lemma {:induction false} PutBytes(data: bytes, pos: nat, v: nat, n: nat) returns (left: nat)
    requires Fits(data, pos, n) && v < POW64 && Clean(data, pos)
    ensures var d, c, k, w := PutField(data, pos, v, n), 8 - pos % 8, More(pos, n), v * Pow2(64 - n) % POW64;
      && pos + c + 8 * k <= 8 * |data| && left < POW64
      && BitsValue(d, pos, c + 8 * k) * POW64 + left == w * Pow2(c) * Pow2(8 * k)
      && forall i :: 0 <= i < |data| && (i < pos / 8 + 1 || pos / 8 + 1 + k <= i) ==> d[i] == PutFirst(data, pos, w)[i]
  {
    hide BitsValue, Pow2, PutFirst, FirstChunk, Clean, WriteRest;
    var w, c := v * Pow2(64 - n) % POW64, 8 - pos % 8;
    NextAligned(pos);
    FirstTakes(data, pos, w);
    ChunkAndRest(w, pos % 8);
    var k;
    k, left := RestWrites(PutFirst(data, pos, w), pos, c, w * Pow2(c) % POW64, n - c);
  }

  // All bits up to the end of the last byte, and the bytes that are not touched.
  lemma {:induction false} PutSum(data: bytes, pos: nat, v: nat, n: nat)
    requires Fits(data, pos, n) && v < POW64 && Clean(data, pos)
    ensures var d, c, k := PutField(data, pos, v, n), 8 - pos % 8, More(pos, n);
      && pos + c + 8 * k <= 8 * |data|
      && BitsValue(d, pos, c + 8 * k) == v % Pow2(n) * Pow2(c + 8 * k - n)
      && forall i :: 0 <= i < |data| && (i < pos / 8 + 1 || pos / 8 + 1 + k <= i) ==>
           d[i] == PutFirst(data, pos, v * Pow2(64 - n) % POW64)[i]
  {
    hide BitsValue, Pow2, PutField, PutFirst, Clean, More;
    var c, k := 8 - pos % 8, More(pos, n);
    var left := PutBytes(data, pos, v, n);
    Justified(v, n);
    Shifts(v % Pow2(n), n, c, k);
    Cancel(BitsValue(PutField(data, pos, v, n), pos, c + 8 * k), left, v % Pow2(n) * Pow2(c + 8 * k - n));
  }

  lemma {:induction false} PutValue(data: bytes, pos: nat, v: nat, n: nat)
    requires Fits(data, pos, n) && v < POW64 && Clean(data, pos)
    ensures var d, e := PutField(data, pos, v, n), 8 - pos % 8 + 8 * More(pos, n) - n;
      && pos + n + e <= 8 * |data|
      && BitsValue(d, pos, n) == v % Pow2(n) && BitsValue(d, pos + n, e) == 0
  {
    hide BitsValue, Pow2, Clean, PutField, PutFirst;
    var d, e, u := PutField(data, pos, v, n), 8 - pos % 8 + 8 * More(pos, n) - n, v % Pow2(n);
    PutSum(data, pos, v, n);
    Split(d, pos, n, e);
    Unique(BitsValue(d, pos, n), BitsValue(d, pos + n, e), u, Pow2(e));
  }

  lemma {:induction false} Edge(pos: nat, n: nat)
    requires n > 0
    ensures var e, k := 8 - pos % 8 + 8 * More(pos, n) - n, More(pos, n);
      && (pos + n + 7) / 8 == pos / 8 + 1 + k
      && ((pos + n) % 8 != 0 ==> e == 8 - (pos + n) % 8)
  {
  }

  lemma {:induction false} PutZeroBehind(data: bytes, pos: nat, v: nat, n: nat, i: nat)
    requires Fits(data, pos, n) && v < POW64 && Clean(data, pos) && (pos + n + 7) / 8 <= i < |data|
    ensures PutField(data, pos, v, n)[i] == 0
  {
    hide BitsValue, Pow2, PutField, OrByte, FirstChunk, More;
    PutSum(data, pos, v, n);
    Edge(pos, n);
  }

  lemma {:induction false} PutStaysClean(data: bytes, pos: nat, v: nat, n: nat)
    requires Fits(data, pos, n) && v < POW64 && Clean(data, pos)
    ensures Clean(PutField(data, pos, v, n), pos + n)
  {
    hide PutField, BitsValue, Pow2, More;
    var d := PutField(data, pos, v, n);
    PutValue(data, pos, v, n);
    Edge(pos, n);
    forall i | (pos + n + 7) / 8 <= i < |d| ensures d[i] == 0 { PutZeroBehind(data, pos, v, n, i); }
    if (pos + n) % 8 != 0 && (pos + n) / 8 < |d| { RestOfByte(d, pos + n); }
  }

  lemma {:induction false} HighBit(x: nat, y: nat, o: nat, j: nat)
    requires j < o <= 8 && y < Pow2(8 - o) && x % Pow2(8 - o) == 0
    ensures (x + y) / Pow2(7 - j) == x / Pow2(7 - j)
  {
    var p, q := Pow2(8 - o), Pow2(o - 1 - j);
    PowAdd(8 - o, o - 1 - j);
    hide Pow2;
    AddBelow(x, y, p);
    DivDiv(x + y, p, q);
    DivDiv(x, p, q);
  }

  lemma {:induction false} FirstElsewhere(data: bytes, pos: nat, w: nat, i: nat)
    requires pos / 8 < |data| && w < POW64 && i < |data| && i != pos / 8
    ensures PutFirst(data, pos, w)[i] == data[i]
  {
  }

  lemma {:induction false} PutKeepsBit(data: bytes, pos: nat, v: nat, n: nat, i: nat)
    requires Fits(data, pos, n) && v < POW64 && Clean(data, pos) && i < pos
    ensures Bit(PutField(data, pos, v, n), i) == Bit(data, i)
  {
    hide PutField, PutFirst, Pow2, FirstChunk, Clean, BitsValue;
    var w := v * Pow2(64 - n) % POW64;
    PutSum(data, pos, v, n);
    assert PutField(data, pos, v, n)[i / 8] == PutFirst(data, pos, w)[i / 8];
    if i / 8 == pos / 8 {
      FirstKeeps(data, pos, w);
      HighBit(data[i / 8], FirstChunk(w, pos % 8), pos % 8, i % 8);
    } else {
      FirstElsewhere(data, pos, w, i / 8);
    }
  }

  lemma {:induction false} PutKeepsFields(data: bytes, pos: nat, v: nat, n: nat, off: nat, m: nat)
    requires Fits(data, pos, n) && v < POW64 && Clean(data, pos) && off + m <= pos
    ensures BitsValue(PutField(data, pos, v, n), off, m) == BitsValue(data, off, m)
    decreases m
  {
    hide PutField, Clean, Bit;
    if m > 0 {
      PutKeepsFields(data, pos, v, n, off, m - 1);
      PutKeepsBit(data, pos, v, n, off + m - 1);
    }
  }

  // ---------------------------------------------------------------------------
  // Fields one after the other

  datatype Field = Field(value: nat, width: nat)

  predicate AllFields(fs: seq<Field>) {
    fs == [] || (fs[0].value < POW64 && 0 < fs[0].width <= 64 && AllFields(fs[1..]))
  }

  function Width(fs: seq<Field>): nat { if fs == [] then 0 else fs[0].width + Width(fs[1..]) }

  function PutAll(data: bytes, pos: nat, fs: seq<Field>): (d: bytes)
    requires AllFields(fs) && pos + Width(fs) <= 8 * |data|
    ensures |d| == |data|
    decreases |fs|
  {
    if fs == [] then data else PutAll(PutField(data, pos, fs[0].value, fs[0].width), pos + fs[0].width, fs[1..])
  }

  // Reading fields of given widths, through the cursor.
  function ReadAll(data: bytes, c: Cursor, fs: seq<Field>): seq<nat>
    requires AllFields(fs)
    decreases |fs|
  {
    if fs == [] then []
    else
      var r := ReadField(data, c, fs[0].width);
      [r.value] + ReadAll(data, r.after, fs[1..])
  }

  function Trimmed(fs: seq<Field>): seq<nat> {
    if fs == [] then [] else [fs[0].value % Pow2(fs[0].width)] + Trimmed(fs[1..])
  }

  lemma {:induction false} AllKeepFields(data: bytes, pos: nat, fs: seq<Field>, off: nat, m: nat)
    requires AllFields(fs) && pos + Width(fs) <= 8 * |data| && Clean(data, pos) && off + m <= pos
    ensures BitsValue(PutAll(data, pos, fs), off, m) == BitsValue(data, off, m)
    decreases |fs|
  {
    hide PutField, Clean, BitsValue;
    if fs != [] {
      var d := PutField(data, pos, fs[0].value, fs[0].width);
      PutKeepsFields(data, pos, fs[0].value, fs[0].width, off, m);
      PutStaysClean(data, pos, fs[0].value, fs[0].width);
      AllKeepFields(d, pos + fs[0].width, fs[1..], off, m);
    }
  }

  // On a zeroed buffer, any fields written one after the other read back, each reduced to its width; the bits in
  // front stay and the bits behind are zero.
  lemma {:induction false} FieldsReadBack(data: bytes, c: Cursor, fs: seq<Field>)
    requires AllFields(fs) && c.pos + Width(fs) <= 8 * |data| && Clean(data, c.pos)
    ensures var d := PutAll(data, c.pos, fs); ReadAll(d, c, fs) == Trimmed(fs) && Clean(d, c.pos + Width(fs))
    decreases |fs|
  {
    hide PutField, Clean, BitsValue, Pow2;
    if fs != [] {
      var f, pos := fs[0], c.pos;
      var d1 := PutField(data, pos, f.value, f.width);
      PutValue(data, pos, f.value, f.width);
      PutStaysClean(data, pos, f.value, f.width);
      FieldsReadBack(d1, c.(pos := pos + f.width), fs[1..]);
      AllKeepFields(d1, pos + f.width, fs[1..], pos, f.width);
    }
  }
}
