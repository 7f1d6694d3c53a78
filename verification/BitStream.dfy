/** The bit cursor over a NAL unit as the object that steps over emulation prevention bytes. */
module BitStream {
  import opened Bytes
  import opened ExpGolomb
  import opened Emulation

  class Stream {
    const h264: bytes
    var offsetBytes: nat
    var offsetBits: nat

    ghost function Here(): Place
      reads this
    {
      Place(offsetBytes, offsetBits)
    }

    ghost predicate Valid()
      reads this
    {
      Sound(h264, Here())
    }

    // The bit of the stripped string that comes next.
    ghost function Next(): nat
      requires Valid()
      reads this
    {
      Position(h264, Here())
    }

    constructor (h264: bytes)
      ensures Valid() && this.h264 == h264 && Next() == 0
    {
      this.h264 := h264;
      offsetBytes, offsetBits := 0, 0;
    }

    method MoveNextBit()
      modifies this
      ensures Here() == Forward(h264, old(Here()))
      requires offsetBits < 8
    {
      offsetBits := offsetBits + 1;
      if offsetBits >= 8 {
        offsetBits := offsetBits % 8;
        if offsetBytes + 1 <= |h264| {
          offsetBytes := offsetBytes + 1;
          if offsetBytes < |h264| && h264[offsetBytes] == 3 && offsetBytes > 1
             && h264[offsetBytes - 1] == 0 && h264[offsetBytes - 2] == 0 {
            offsetBytes := offsetBytes + 1;
          }
        }
      }
    }

    method ReadBit() returns (bit: int)
      requires Valid()
      modifies this
      ensures Valid()
      ensures old(Next()) < 8 * |Sodb(h264)| ==> bit == Bit(Sodb(h264), old(Next())) && Next() == old(Next()) + 1
      ensures old(Next()) >= 8 * |Sodb(h264)| ==> bit == -1 && Here() == old(Here())
    {
      hide Forward, Dropped, Pow2, Bit, Sodb;
      ReadSteps(h264, Here());
      if offsetBytes >= |h264| { return -1; }
      bit := (h264[offsetBytes] as nat / Pow2(7 - offsetBits)) % 2;
      MoveNextBit();
    }

    // Look without moving.
    method NextBit() returns (bit: int)
      requires Valid()
      ensures bit == if Next() < 8 * |Sodb(h264)| then Bit(Sodb(h264), Next()) else -1
    {
      ReadSteps(h264, Here());
      hide Forward, Dropped, Pow2, Bit, Sodb;
      if offsetBytes >= |h264| { return -1; }
      bit := (h264[offsetBytes] as nat / Pow2(7 - offsetBits)) % 2;
    }

    // A field of the stripped string, as a 32-bit value; -1 when it is cut off.
    method ReadBits(n: nat) returns (value: int)
      requires Valid()
      modifies this
      ensures Valid() && value == FieldOr(Sodb(h264), old(Next()), n)
      ensures n > 0 ==> Next() == if old(Next()) + n <= 8 * |Sodb(h264)| then old(Next()) + n else 8 * |Sodb(h264)|
      ensures n == 0 ==> Here() == old(Here())
    {
      hide Sodb, Bit, Wrap32, Position, Sound;
      value := 0;
      var i, bit := 0, 0;
      ghost var s, start := Sodb(h264), Next();
      ReadSteps(h264, Here());
      NoField(s, start);
      while i < n && bit != -1
        invariant i <= n && Valid() && start <= 8 * |s|
        invariant bit != -1 ==> start + i <= 8 * |s| && Next() == start + i && value == Wrap32(BitsValue(s, start, i))
        invariant bit == -1 ==> value == -1 && start + n > 8 * |s| && Next() == 8 * |s|
        invariant i == 0 ==> Here() == old(Here())
        decreases bit != -1, n - i
      {
        bit := ReadBit();
        if bit == -1 {
          value := -1;
        } else {
          BitAppends(s, start, i, value, bit);
          value := Wrap32(2 * value + bit);
        }
        i := i + 1;
      }
    }

    // An unsigned code; fewer than 32 zeros are asked for.
    method ReadUe() returns (value: int)
      requires Valid() && Zeros(Sodb(h264), Next()) < 32
      modifies this
      ensures Valid() && value == CursorUe(Sodb(h264), old(Next()))
      ensures Complete(Sodb(h264), old(Next())) ==> Next() == old(Next()) + 2 * Zeros(Sodb(h264), old(Next())) + 1
    {
      hide Sodb, Bit, Wrap32, Position, Sound, BitsValue;
      var zeros, bit := -1, 0;
      ghost var s, start := Sodb(h264), Next();
      ReadSteps(h264, Here());
      ghost var z := Zeros(s, start);
      while bit == 0
        invariant -1 <= bit <= 1 && Valid() && start <= 8 * |s|
        invariant bit == 0 ==> zeros + 1 >= 0 && Next() == start + (zeros + 1) && z == (zeros + 1) + Zeros(s, Next())
        invariant bit == 1 ==> zeros == z && Next() == start + z + 1
        invariant bit == -1 ==> zeros == z && Next() == 8 * |s| == start + z
        decreases bit == 0, 8 * |s| - Next()
      {
        bit := ReadBit();
        zeros := zeros + 1;
      }
      var tail := 0;
      if zeros > 0 { tail := ReadBits(zeros); }
      value := Wrap32(Pow2(zeros) - 1 + tail);
    }

    method ReadSe() returns (value: int)
      requires Valid() && Zeros(Sodb(h264), Next()) < 32
      modifies this
      ensures Valid() && value == Signed(CursorUe(Sodb(h264), old(Next())))
      ensures Complete(Sodb(h264), old(Next())) ==> Next() == old(Next()) + 2 * Zeros(Sodb(h264), old(Next())) + 1
    {
      hide Sodb, Zeros, CursorUe;
      var v := ReadUe();
      value := (if v % 2 == 0 then -1 else 1) * Half(v + 1);
    }
  }

  lemma {:induction false} NoField(s: bytes, pos: nat)
    ensures BitsValue(s, pos, 0) == 0 && Wrap32(0) == 0
  {
  }

  lemma {:induction false} WrapDouble(x: int, b: int)
    ensures Wrap32(2 * Wrap32(x) + b) == Wrap32(2 * x + b)
  {
    var k := (Wrap32(x) - x) / POW32;
    assert Wrap32(x) == x + k * POW32;
    SameWrap(2 * x + b, 2 * k);
  }

  lemma {:induction false} SameWrap(x: int, k: int)
    ensures Wrap32(x + k * POW32) == Wrap32(x)
  {
  }

  lemma {:induction false} BitAppends(s: bytes, pos: nat, i: nat, value: int, bit: int)
    requires pos + i < 8 * |s| && bit == Bit(s, pos + i) && value == Wrap32(BitsValue(s, pos, i))
    ensures Wrap32(2 * value + bit) == Wrap32(BitsValue(s, pos, i + 1))
  {
    hide Bit, Wrap32;
    WrapDouble(BitsValue(s, pos, i), bit);
  }
}
