/** The n-bit cursor as the object that reads and fills a buffer in place, a byte or a part of a byte at a time. */
module BitCursor {
  import opened Bytes
  import opened ExpGolomb
  import opened Bits
  import opened BitsWrite

  class Cursors {
    const data: array<byte>
    var bits: nat
    var error: int

    ghost function Value(): Cursor
      reads this
    {
      Cursor(bits, error)
    }

    constructor (data: array<byte>)
      ensures this.data == data && Value() == Cursor(0, 0)
    {
      this.data := data;
      bits, error := 0, 0;
    }

    // On to the next multiple of `n`, if not on one.
    method Align(n: nat)
      requires n > 0
      modifies this`bits
      ensures bits % n == 0 && old(bits) <= bits < old(bits) + n
    {
      var q, r := (bits + n - 1) / n, (bits + n - 1) % n;
      Division(q * n, n, q, 0);
      bits := (bits + n - 1) / n * n;
    }

    // How many bits are left; none after an error. Past the end the 64-bit difference wraps.
    method Remain() returns (n: nat)
      requires data.Length * 8 < POW64 && bits < POW64
      ensures error != 0 ==> n == 0
      ensures error == 0 ==> (bits + n == 8 * data.Length <==> bits <= 8 * data.Length) && (bits + n) % POW64 == 8 * data.Length
    {
      n := if error != 0 then 0 else (data.Length * 8 - bits) % POW64;
    }

    method Read() returns (bit: nat)
      modifies this
      ensures ReadResult(bit, Value()) == ReadBit(data[..], old(Value()))
    {
      if bits >= data.Length * 8 {
        error := -1;
        return 0;
      }
      bit := if data[bits / 8] as nat / Pow2(7 - bits % 8) % 2 == 1 then 1 else 0;
      bits := bits + 1;
    }

    // The rest of a field, once what its first byte holds of it is taken.
    method ReadRest(first: nat, n: nat) returns (value: nat)
      requires 8 - bits % 8 + n <= 64 && bits + (8 - bits % 8) + n <= 8 * data.Length && bits / 8 < data.Length
      requires first == BitsValue(data[..], bits, 8 - bits % 8)
      ensures bits + (8 - bits % 8) + n - 1 < 8 * data.Length
      ensures value == BitsValue(data[..], bits, 8 - bits % 8 + n)
    {
      hide BitsValue, Pow2;
      var c := 8 - bits % 8;
      value := first;
      var left, i := n, 1;
      while left >= 8
        invariant i >= 1 && 8 * (i - 1) <= n && left == n - 8 * (i - 1)
        invariant value == BitsValue(data[..], bits, c + 8 * (i - 1))
      {
        TakeByte(data[..], bits, i);
        value := value * 256 % POW64 + data[bits / 8 + i];
        left, i := left - 8, i + 1;
      }
      if left > 0 {
        TakePart(data[..], bits, i, left);
        value := ShiftIn(value, left, data[bits / 8 + i]);
      }
    }

    method ReadInside(n: nat) returns (value: nat)
      requires Fits(data[..], bits, n)
      ensures value == BitsValue(data[..], bits, n)
    {
      hide BitsValue, Pow2, Kept;
      var c := 8 - bits % 8;
      if n <= c {
        KeptIsField(data[..], bits, n);
        value := Kept(data[bits / 8], c, n);
      } else {
        KeptIsField(data[..], bits, c);
        value := ReadRest(Kept(data[bits / 8], c, c), n - c);
      }
    }

    method ReadN(n: int) returns (value: nat)
      requires n != 0
      modifies this`bits, this`error
      ensures ReadResult(value, Value()) == ReadField(data[..], old(Value()), n)
    {
      hide BitsValue;
      if bits + n > data.Length * 8 || n > 64 || n < 0 {
        error := -1;
        return 0;
      }
      value := ReadInside(n);
      bits := bits + n;
    }

    method Write(v: int) returns (r: int)
      modifies this, data
      ensures r == if old(bits) >= 8 * data.Length then -1 else 0
      ensures r != 0 ==> data[..] == old(data[..]) && Value() == old(Value()).(error := -1)
      ensures r == 0 ==> Value() == old(Value()).(pos := old(bits) + 1)
      ensures r == 0 ==> data[..] == PutField(old(data[..]), old(bits), if v != 0 then 1 else 0, 1)
    {
      if bits >= data.Length * 8 {
        error := -1;
        return -1;
      }
      OneBit(data[..], bits, if v != 0 then 1 else 0);
      OrNothing(data[bits / 8]);
      hide Pow2, OrByte, PutField;
      if v != 0 {
        data[bits / 8] := OrByte(data[bits / 8], MaskBit(bits % 8));
      }
      bits := bits + 1;
      return 0;
    }

    // The bytes after the first one of a field are overwritten.
    method WriteBytes(at: nat, v: nat, n: int)
      requires v < POW64 && (n > 0 ==> 8 * at + n <= 8 * data.Length)
      modifies data
      ensures data[..] == WriteRest(old(data[..]), at, v, n)
    {
      var left, i, word: nat := n, 0, v;
      while left > 0
        invariant word < POW64 && (left > 0 ==> 8 * (at + i) + left <= 8 * data.Length)
        invariant WriteRest(old(data[..]), at, v, n) == WriteRest(data[..], at + i, word, left)
      {
        ghost var before := data[..];
        data[at + i] := HighByte(word);
        assert data[..] == before[at + i := HighByte(word)];
        word := word * 256 % POW64;
        left, i := left - 8, i + 1;
      }
    }

    method WriteN(v: nat, n: int) returns (r: int)
      requires n != 0 && v < POW64
      modifies this, data
      ensures r == if n < 0 || !Fits(data[..], old(bits), n) then -1 else 0
      ensures r != 0 ==> data[..] == old(data[..]) && Value() == old(Value()).(error := -1)
      ensures r == 0 ==> Value() == old(Value()).(pos := old(bits) + n) && data[..] == PutField(old(data[..]), old(bits), v, n)
    {
      if bits + n > data.Length * 8 || n > 64 || n < 0 {
        error := -1;
        return -1;
      }
      hide Pow2, OrByte, FirstChunk;
      var w := v * Pow2(64 - n) % POW64;
      ghost var before := data[..];
      data[bits / 8] := OrByte(data[bits / 8], FirstChunk(w, bits % 8));
      assert data[..] == PutFirst(before, bits, w);
      WriteBytes(bits / 8 + 1, w * Pow2(8 - bits % 8) % POW64, n - (8 - bits % 8));
      bits := bits + n;
      return 0;
    }
  }

  // The byte `i` of a field that starts at `pos`, counted from its first byte.
  lemma {:induction false} ByteAt(pos: nat, i: nat)
    requires i > 0
    ensures (pos + (8 - pos % 8 + 8 * (i - 1))) % 8 == 0 && (pos + (8 - pos % 8 + 8 * (i - 1))) / 8 == pos / 8 + i
  {
  }

  // The last `c` bits of a byte without the last `c - n`.
  function Kept(x: byte, c: nat, n: nat): (v: nat)
    requires 0 < n <= c <= 8
  {
    Quotient(x as nat % Pow2(c), Pow2(c - n));
    x as nat % Pow2(c) / Pow2(c - n)
  }

  lemma {:induction false} KeptIsField(data: bytes, pos: nat, n: nat)
    requires pos / 8 < |data| && 0 < n <= 8 - pos % 8
    ensures (pos + n - 1) / 8 < |data| && Kept(data[pos / 8], 8 - pos % 8, n) == BitsValue(data, pos, n)
  {
    hide Pow2, BitsValue;
    MiddleOfByte(data, pos, n);
  }

  // Make room for `n` bits in a 64-bit word and put the first bits of a byte there.
  function ShiftIn(v: nat, n: nat, x: byte): (r: nat)
    requires 0 < n < 8
  {
    Quotient(x, Pow2(8 - n));
    v * Pow2(n) % POW64 + x as nat / Pow2(8 - n)
  }

  lemma {:induction false} Quotient(x: nat, d: nat)
    requires d > 0
    ensures x / d >= 0
  {
    Scaled(x / d, d);
  }

  lemma {:induction false} TakeByte(data: bytes, pos: nat, i: nat)
    requires i > 0 && 8 - pos % 8 + 8 * i <= 64 && pos + (8 - pos % 8) + 8 * i <= 8 * |data|
    ensures pos / 8 + i < |data|
    ensures var c := 8 - pos % 8;
      && (pos + c + 8 * (i - 1) - 1) / 8 < |data| && (pos + c + 8 * i - 1) / 8 < |data|
      && BitsValue(data, pos, c + 8 * i) == BitsValue(data, pos, c + 8 * (i - 1)) * 256 % POW64 + data[pos / 8 + i]
  {
    hide BitsValue, Pow2;
    var c := 8 - pos % 8;
    ByteAt(pos, i);
    NextByte(data, pos, c + 8 * (i - 1));
    NoWrap(data, pos, c + 8 * i);
  }

  lemma {:induction false} TakePart(data: bytes, pos: nat, i: nat, n: nat)
    requires i > 0 && 0 < n < 8 && 8 - pos % 8 + 8 * (i - 1) + n <= 64 && pos + (8 - pos % 8) + 8 * (i - 1) + n <= 8 * |data|
    ensures pos / 8 + i < |data|
    ensures var c := 8 - pos % 8 + 8 * (i - 1);
      && (pos + c - 1) / 8 < |data| && (pos + c + n - 1) / 8 < |data|
      && BitsValue(data, pos, c + n) == ShiftIn(BitsValue(data, pos, c), n, data[pos / 8 + i])
  {
    hide BitsValue, Pow2;
    var c := 8 - pos % 8 + 8 * (i - 1);
    ByteAt(pos, i);
    StartOfByte(data, pos, c, n);
    NoWrap(data, pos, c + n);
    ShiftInExact(BitsValue(data, pos, c), n, data[pos / 8 + i], BitsValue(data, pos, c + n));
  }

  lemma {:induction false} ShiftInExact(v: nat, n: nat, x: byte, b: nat)
    requires 0 < n < 8 && b == v * Pow2(n) + x as nat / Pow2(8 - n) && b < POW64
    ensures ShiftIn(v, n, x) == b
  {
    hide Pow2;
    Quotient(x, Pow2(8 - n));
  }

  // Nothing of a field of at most 64 bits is shifted out of the word.
  lemma {:induction false} NoWrap(data: bytes, off: nat, n: nat)
    requires 0 < n <= 64 && (off + n - 1) / 8 < |data|
    ensures BitsValue(data, off, n) < POW64
  {
    Pow64();
    PowAdd(n, 64 - n);
    assert Pow2(n) * 1 <= Pow2(n) * Pow2(64 - n);
  }

  function MaskBit(o: nat): (b: byte)
    requires o < 8
    ensures b as nat == Pow2(7 - o)
  {
    Pow64();
    PowAdd(7 - o, o + 1);
    assert Pow2(7 - o) * 2 <= Pow2(7 - o) * Pow2(o + 1);
    Pow2(7 - o)
  }

  lemma {:induction false} OrNothing(x: byte)
    ensures OrByte(x, 0) == x
  {
    Pow64();
    OrAdds(x, 0, 0, 8);
  }

  lemma {:induction false} OneChunk(o: nat)
    requires o < 8
    ensures Pow2(63) < POW64 && FirstChunk(Pow2(63), o) == MaskBit(o) && FirstChunk(0, o) == 0
  {
    Pow64();
    assert Pow2(64) == 2 * Pow2(63);
    PowAdd(56 + o, 7 - o);
    hide Pow2;
    Division(Pow2(63), Pow2(56 + o), Pow2(7 - o), 0);
    Division(0, Pow2(56 + o), 0, 0);
  }

  lemma {:induction false} NothingLeft(data: bytes, j: nat, v: nat, n: int)
    requires v < POW64 && n <= 0
    ensures WriteRest(data, j, v, n) == data
  {
  }

  lemma {:induction false} OneBit(data: bytes, pos: nat, v: nat)
    requires pos < 8 * |data| && v <= 1
    ensures PutField(data, pos, v, 1) == data[pos / 8 := OrByte(data[pos / 8], if v == 1 then MaskBit(pos % 8) else 0)]
  {
    hide Pow2, FirstChunk, MaskBit, OrByte;
    OneChunk(pos % 8);
    var w := if v == 1 then Pow2(63) else 0;
    assert v * Pow2(63) == w && w % POW64 == w;
    NothingLeft(PutFirst(data, pos, w), pos / 8 + 1, w * Pow2(8 - pos % 8) % POW64, 1 - (8 - pos % 8));
    hide WriteRest;
  }
}
