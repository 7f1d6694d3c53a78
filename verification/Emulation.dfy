/** Emulation prevention, and a bit cursor that skips its bytes lazily. */
module Emulation {
  import opened Bytes
  import opened ExpGolomb
  import opened Bits

  // The byte at `i` is an emulation prevention byte.
  predicate Dropped(h: bytes, i: nat)
    requires i < |h|
  {
    i > 1 && h[i] == 3 && h[i - 1] == 0 && h[i - 2] == 0
  }

  // The first `n` bytes without emulation prevention bytes.
  function Stripped(h: bytes, n: nat): (s: bytes)
    requires n <= |h|
    ensures |s| <= n
  {
    if n == 0 then [] else if Dropped(h, n - 1) then Stripped(h, n - 1) else Stripped(h, n - 1) + [h[n - 1]]
  }

  function Sodb(h: bytes): bytes { Stripped(h, |h|) }

  lemma {:induction false} StrippedPrefix(h: bytes, n: nat, m: nat)
    requires n <= m <= |h|
    ensures Stripped(h, n) <= Stripped(h, m)
    decreases m
  {
    if n < m { StrippedPrefix(h, n, m - 1); }
  }

  // ---------------------------------------------------------------------------
  // The cursor

  datatype Place = Place(at: nat, bit: nat)

  function Forward(h: bytes, p: Place): Place {
    if p.bit + 1 < 8 then p.(bit := p.bit + 1)
    else if p.at + 1 <= |h| then
      Place(if p.at + 1 < |h| && Dropped(h, p.at + 1) then p.at + 2 else p.at + 1, 0)
    else Place(p.at, 0)
  }

  datatype BitRead = BitRead(bit: int, after: Place)

  function ReadAt(h: bytes, p: Place): BitRead
    requires p.bit < 8
  {
    if p.at >= |h| then BitRead(-1, p) else BitRead(h[p.at] as nat / Pow2(7 - p.bit) % 2, Forward(h, p))
  }

  // A place the cursor can be at after starting at the front.
  predicate Sound(h: bytes, p: Place) {
    p.bit < 8 && p.at <= |h| && if p.at < |h| then !Dropped(h, p.at) else p.bit == 0
  }

  // The bit of the stripped string that the cursor is at.
  function Position(h: bytes, p: Place): nat
    requires p.at <= |h|
  {
    8 * |Stripped(h, p.at)| + p.bit
  }

  lemma {:induction false} StrippedAt(h: bytes, i: nat)
    requires i < |h| && !Dropped(h, i)
    ensures |Stripped(h, i)| < |Sodb(h)| && Sodb(h)[|Stripped(h, i)|] == h[i]
  {
    assert Stripped(h, i + 1) == Stripped(h, i) + [h[i]];
    StrippedPrefix(h, i + 1, |h|);
  }

  lemma {:induction false} ForwardSteps(h: bytes, p: Place)
    requires Sound(h, p) && p.at < |h|
    ensures var q := Forward(h, p); Sound(h, q) && Position(h, q) == Position(h, p) + 1
  {
    assert Stripped(h, p.at + 1) == Stripped(h, p.at) + [h[p.at]];
  }

  // One read is one read of the stripped string, and past its end changes nothing.
  lemma {:induction false} ReadSteps(h: bytes, p: Place)
    requires Sound(h, p)
    ensures var r, pos, s := ReadAt(h, p), Position(h, p), Sodb(h);
      && Sound(h, r.after)
      && (if pos < 8 * |s| then r.bit == Bit(s, pos) && Position(h, r.after) == pos + 1
          else pos == 8 * |s| && r.bit == -1 && r.after == p)
  {
    hide Pow2;
    if p.at < |h| {
      StrippedAt(h, p.at);
      ForwardSteps(h, p);
      assert Position(h, p) / 8 == |Stripped(h, p.at)| && Position(h, p) % 8 == p.bit;
    }
  }

  // Read until `n` bits are there or the string ends.
  function ReadMany(h: bytes, p: Place, n: nat): seq<BitRead>
    requires Sound(h, p)
    decreases n
  {
    if n == 0 then []
    else
      ReadSteps(h, p);
      var r := ReadAt(h, p);
      [r] + if r.bit == -1 then [] else ReadMany(h, r.after, n - 1)
  }

  // For every byte string: the bits read lazily are the bits of the stripped string, one by one, and behind the last
  // one there is an error.
  lemma {:induction false} LazyReadsStripped(h: bytes, p: Place, n: nat, i: nat)
    requires Sound(h, p) && i < n && Position(h, p) + i <= 8 * |Sodb(h)|
    ensures
      var rs, pos := ReadMany(h, p, n), Position(h, p) + i;
      && i < |rs| && Sound(h, rs[i].after)
      && (if pos < 8 * |Sodb(h)| then rs[i].bit == Bit(Sodb(h), pos) && Position(h, rs[i].after) == pos + 1
          else rs[i].bit == -1 && |rs| == i + 1)
    decreases n
  {
    hide ReadAt, Sodb, Bit;
    ReadSteps(h, p);
    if i > 0 { LazyReadsStripped(h, ReadAt(h, p).after, n - 1, i - 1); }
  }

  // ---------------------------------------------------------------------------
  // Exp-Golomb codes

  function Wrap32(v: int): (w: int)
    ensures -0x8000_0000 <= w < 0x8000_0000 && (w - v) % POW32 == 0
  {
    var u := v % POW32;
    if u >= 0x8000_0000 then u - POW32 else u
  }

  // What reading `n` bits gives: -1 when they are not all there.
  function FieldOr(s: bytes, pos: nat, n: nat): int {
    if n == 0 then 0 else if pos + n <= 8 * |s| then Wrap32(BitsValue(s, pos, n)) else -1
  }

  // An unsigned code: as many bits as there are zeros in front of the first one.
  function CursorUe(s: bytes, pos: nat): int {
    var z := Zeros(s, pos);
    Wrap32(Pow2(z) - 1 + FieldOr(s, pos + z + 1, z))
  }

  predicate Complete(s: bytes, pos: nat) { pos + 2 * Zeros(s, pos) + 1 <= 8 * |s| }

  lemma {:induction false} ZeroBits(s: bytes, pos: nat)
    ensures pos <= 8 * |s| ==> pos + Zeros(s, pos) <= 8 * |s|
    ensures pos + Zeros(s, pos) <= 8 * |s| ==> BitsValue(s, pos, Zeros(s, pos)) == 0
    decreases 8 * |s| - pos
  {
    hide Bit;
    if pos / 8 < |s| && Bit(s, pos) != 1 {
      ZeroBits(s, pos + 1);
      Split(s, pos, 1, Zeros(s, pos + 1));
      LastBit(s, pos, 1);
    }
  }

  lemma {:induction false} PowBound(a: nat, b: nat)
    requires a <= b
    ensures Pow2(a) <= Pow2(b)
    decreases b
  {
    if a < b { PowBound(a, b - 1); }
  }

  lemma {:induction false} PowLow(n: nat)
    requires n >= 8
    ensures Pow2(n) % 256 == 0
    decreases n
  {
    if n == 8 { Pow64(); } else { PowLow(n - 1); }
  }

  lemma {:induction false} SmallPow(z: nat)
    requires z < 32
    ensures Pow2(z) <= 0x8000_0000 && Low8(z) as nat == Pow2(z) % 256
  {
    Pow31();
    PowBound(z, 31);
    if z >= 8 { PowLow(z); } else { LowPow(z); }
  }

  lemma {:induction false} Pow31()
    ensures Pow2(31) == 0x8000_0000
  {
    Pow64();
    PowAdd(8, 8);
    assert Pow2(16) == 0x1_0000 && Pow2(15) == 0x8000;
    PowAdd(16, 15);
  }

  lemma {:induction false} LowPow(z: nat)
    requires z < 8
    ensures Low8(z) as nat == Pow2(z) % 256
  {
    assert Pow2(0) == 1 && Pow2(1) == 2 && Pow2(2) == 4 && Pow2(3) == 8;
    assert Pow2(4) == 16 && Pow2(5) == 32 && Pow2(6) == 64 && Pow2(7) == 128;
  }

  lemma {:induction false} OneBitField(s: bytes, pos: nat)
    requires pos / 8 < |s| && Bit(s, pos) == 1
    ensures BitsValue(s, pos, 1) == 1
  {
    hide Bit;
    assert BitsValue(s, pos, 0) == 0;
  }

  lemma {:induction false} FirstOne(s: bytes, pos: nat)
    requires Complete(s, pos)
    ensures var z := Zeros(s, pos);
      (pos + z) / 8 < |s| && BitsValue(s, pos, z) == 0 && BitsValue(s, pos + z, 1) == 1
  {
    hide BitsValue, Bit;
    ZeroBits(s, pos);
    OneBitField(s, pos + Zeros(s, pos));
  }

  lemma {:induction false} UeBits(s: bytes, pos: nat)
    requires Complete(s, pos)
    ensures var z := Zeros(s, pos);
      && pos + 2 * z < 8 * |s| && BitsValue(s, pos, 2 * z + 1) == Pow2(z) + BitsValue(s, pos + z + 1, z)
  {
    hide Bit, Pow2, BitsValue, Zeros;
    var z := Zeros(s, pos);
    FirstOne(s, pos);
    Split(s, pos + z, 1, z);
    Split(s, pos, z, 1 + z);
    assert BitsValue(s, pos, z) * Pow2(1 + z) == 0;
    assert BitsValue(s, pos + z, 1) * Pow2(z) == Pow2(z);
    assert z + (1 + z) == 2 * z + 1;
  }

  lemma {:induction false} FieldSmall(s: bytes, pos: nat, n: nat)
    requires n < 32 && pos + n <= 8 * |s|
    ensures FieldOr(s, pos, n) == BitsValue(s, pos, n) < 0x8000_0000
  {
    SmallPow(n);
    hide Bit;
    assert n == 0 ==> BitsValue(s, pos, n) == 0;
    hide BitsValue, Pow2;
  }

  // The bits of a complete code, read as one number, are the code number plus one (section 9.1 of ITU-T H.264).
  lemma {:induction false} UeMeaning(s: bytes, pos: nat)
    requires Complete(s, pos) && Zeros(s, pos) < 32
    ensures pos + 2 * Zeros(s, pos) < 8 * |s| && CursorUe(s, pos) == Wrap32(BitsValue(s, pos, 2 * Zeros(s, pos) + 1) - 1)
  {
    hide Pow2, Zeros, BitsValue, Bit, Wrap32, FieldOr;
    UeBits(s, pos);
    FieldSmall(s, pos + Zeros(s, pos) + 1, Zeros(s, pos));
  }

  lemma {:induction false} SameLow(w: int, v: int, k: int)
    requires w == v + 256 * k
    ensures w % 256 == v % 256
  {
    assert v == 256 * (v / 256) + v % 256;
    assert w == 256 * (v / 256 + k) + v % 256;
  }

  lemma {:induction false} WrapLow(v: int)
    ensures Wrap32(v) % 256 == v % 256
  {
    var w := Wrap32(v);
    hide Wrap32;
    var k := (w - v) / POW32;
    assert w - v == k * POW32;
    SameLow(w, v, k * 0x100_0000);
  }

  lemma {:induction false} LowSum(p: nat, low: byte, t: nat)
    requires low as nat == p % 256
    ensures (low as int - 1 + t) % 256 == (p - 1 + t) % 256
  {
    assert p == 256 * (p / 256) + low as nat;
  }

  // On complete codes with fewer than 32 zeros, the eight-bit reader gives the low byte of what the cursor gives, and
  // both end at the same bit.
  lemma {:induction false} ReadersAgree(s: bytes, pos: nat)
    requires Complete(s, pos) && Zeros(s, pos) < 32
    ensures var r := ReadUe(s, pos);
      r.value as int == CursorUe(s, pos) % 256 && r.next == pos + 2 * Zeros(s, pos) + 1
  {
    hide Bit, Pow2, BitsValue, Zeros, Low8, CursorUe, Wrap32, ReadUe;
    var z := Zeros(s, pos);
    UeMeaning(s, pos);
    UeBits(s, pos);
    SmallPow(z);
    var tail := BitsValue(s, pos + z + 1, z);
    WrapLow(Pow2(z) - 1 + tail);
    LowSum(Pow2(z), Low8(z), tail);
    ReadUeComplete(s, pos);
  }

  lemma {:induction false} ReadUeComplete(s: bytes, pos: nat)
    requires Complete(s, pos)
    ensures var z := Zeros(s, pos);
      pos + 2 * z < 8 * |s| && ReadUe(s, pos) == Ue((Low8(z) as int - 1 + BitsValue(s, pos + z + 1, z)) % 256, pos + 2 * z + 1)
  {
    hide Bit, BitsValue, Zeros, Low8;
    var z := Zeros(s, pos);
    assert (pos + z) / 8 < |s|;
    assert z == 0 ==> BitsValue(s, pos + z + 1, 0) == BitsValue(s, pos + z + 1, z);
  }

  // ---------------------------------------------------------------------------
  // Signed codes

  // Division here rounds towards zero.
  function Half(x: int): int { if x >= 0 then x / 2 else -(-x / 2) }

  function Signed(v: int): int { (if v % 2 == 0 then -1 else 1) * Half(v + 1) }

  // The code number of a signed value (table 9-3 of ITU-T H.264).
  function CodeOf(k: int): nat { if k > 0 then 2 * k - 1 else -2 * k }

  lemma {:induction false} SignedRoundTrip(k: int, v: nat)
    ensures Signed(CodeOf(k)) == k && CodeOf(Signed(v)) == v
  {
    if k <= 0 { assert (-2 * k + 1) / 2 == -k; }
  }

  // ---------------------------------------------------------------------------
  // The eager decoder

  // Going on from `i` is going on from a byte that the scan, too, would not drop.
  predicate Boundary(h: bytes, i: nat) { (i < |h| ==> !Dropped(h, i)) && (i + 1 < |h| ==> !Dropped(h, i + 1)) }

  predicate ThreeAt(h: bytes, i: nat) { i + 2 < |h| && h[i] == 0 && h[i + 1] == 0 && h[i + 2] == 3 }

  // A pair of zeros in front of an emulation prevention byte begins where one byte of room is left.
  ghost predicate Overruns(h: bytes, len: nat) {
    exists i :: 0 <= i < 256 && ThreeAt(h, i) && Boundary(h, i) && |Stripped(h, i)| + 1 == len
  }

  // Where the decoder that stands at `i`, with `j` bytes out, stops.
  function EagerEnd(h: bytes, i: nat, j: nat, len: nat): (end: nat)
    requires i <= |h|
    ensures i <= end <= |h|
    decreases |h| - i
  {
    if i < |h| && j < len && i < 256 then
      if ThreeAt(h, i) then EagerEnd(h, i + 3, j + 2, len) else EagerEnd(h, i + 1, j + 1, len)
    else i
  }

  // What it leaves behind.
  function Decoded(h: bytes, len: nat): bytes { Stripped(h, EagerEnd(h, 0, 0, len)) }

  lemma {:induction false} EagerMeaning(h: bytes, i: nat, j: nat, len: nat)
    requires i <= |h| && i < 259 && j == |Stripped(h, i)| <= len && Boundary(h, i) && NoneBefore(h, i, len)
    ensures var e := EagerEnd(h, i, j, len); var n := |Stripped(h, e)|;
      && n <= len + 1 && (n == len + 1 <==> Overruns(h, len)) && (e == |h| || 256 <= e < 259 || len <= n)
    decreases |h| - i
  {
    if i < |h| && j < len && i < 256 {
      StrippedStep(h, i);
      OverrunStep(h, i, len);
      hide Overruns, NoneBefore, Boundary, Stripped, Dropped;
      if !ThreeAt(h, i) {
        EagerMeaning(h, i + 1, j + 1, len);
      } else if j + 2 <= len {
        EagerMeaning(h, i + 3, j + 2, len);
      }
    } else {
      NoneAtAll(h, i, len);
    }
  }

  method Emit(a: array<byte>, at: nat, j: nat, b: byte)
    requires at + j < a.Length
    modifies a
    ensures a[at..at + (j + 1)] == old(a[at..at + j]) + [b] && a[..at] == old(a[..at])
  {
    a[at + j] := b;
    assert a[at..at + (j + 1)] == a[at..at + j] + [b];
  }

  // One step copies one byte, or two zeros.
  method CopyStep(nalu: bytes, i: nat, sodb: array<byte>, at: nat, j: nat, ghost end: nat) returns (i': nat, j': nat)
    requires i < |nalu| && Boundary(nalu, i) && i < end <= |nalu| && (ThreeAt(nalu, i) ==> i + 3 <= end)
    requires at + |Stripped(nalu, end)| <= sodb.Length && at + j <= sodb.Length && sodb[at..at + j] == Stripped(nalu, i)
    modifies sodb
    ensures i' <= |nalu| && Boundary(nalu, i') && at + j' <= sodb.Length && sodb[at..at + j'] == Stripped(nalu, i')
    ensures sodb[..at] == old(sodb[..at])
    ensures if ThreeAt(nalu, i) then i' == i + 3 && j' == j + 2 else i' == i + 1 && j' == j + 1
  {
    hide Boundary, Dropped, Stripped;
    StrippedStep(nalu, i);
    if i + 2 < |nalu| && nalu[i] == 0 && nalu[i + 1] == 0 && nalu[i + 2] == 3 {
      StrippedPrefix(nalu, i + 3, end);
      Emit(sodb, at, j, nalu[i]);
      Emit(sodb, at, j + 1, nalu[i + 1]);
      assert Stripped(nalu, i) + [0] + [0] == Stripped(nalu, i) + [0, 0];
      i', j' := i + 3, j + 2;
    } else {
      StrippedPrefix(nalu, i + 1, end);
      Emit(sodb, at, j, nalu[i]);
      i', j' := i + 1, j + 1;
    }
  }

  // Copy without emulation prevention bytes, from at most the first 256 bytes into room for `len` from `at` on; a pair
  // of zeros is copied whole, and that is the only way to write one byte more.
  method RbspDecode(nalu: bytes, sodb: array<byte>, at: nat, len: nat) returns (j: nat, ghost end: nat)
    requires sodb.Length >= at + len && (Overruns(nalu, len) ==> sodb.Length > at + len)
    modifies sodb
    ensures end <= |nalu| && j <= len + 1 && at + j <= sodb.Length && sodb[at..at + j] == Stripped(nalu, end)
    ensures end == |nalu| || 256 <= end < 259 || len <= j
    ensures j == len + 1 <==> Overruns(nalu, len)
    ensures sodb[at..at + j] <= Sodb(nalu)
    ensures |nalu| <= 256 && |nalu| <= len ==> sodb[at..at + j] == Sodb(nalu)
    ensures sodb[..at] == old(sodb[..at]) && sodb[at..at + j] == Decoded(nalu, len)
  {
    hide Overruns, NoneBefore, Boundary, Dropped, Stripped;
    var i := 0;
    j := 0;
    NoneAtStart(nalu, len);
    EagerMeaning(nalu, 0, 0, len);
    end := EagerEnd(nalu, 0, 0, len);
    while i < |nalu| && j < len && i < 256
      invariant i <= |nalu| && Boundary(nalu, i) && end == EagerEnd(nalu, i, j, len)
      invariant at + j <= sodb.Length && sodb[at..at + j] == Stripped(nalu, i) && sodb[..at] == old(sodb[..at])
    {
      i, j := CopyStep(nalu, i, sodb, at, j, end);
    }
    StrippedPrefix(nalu, end, |nalu|);
  }

  // From room for 257 bytes on, more room makes no difference.
  lemma {:induction false} EagerEnough(h: bytes, i: nat, j: nat, len: nat)
    requires j <= i <= |h| && len >= 257
    ensures EagerEnd(h, i, j, len) == EagerEnd(h, i, j, 257)
    decreases |h| - i
  {
    if i < |h| && i < 256 {
      if ThreeAt(h, i) { EagerEnough(h, i + 3, j + 2, len); } else { EagerEnough(h, i + 1, j + 1, len); }
    }
  }

  // No place in front of `i` has a pair of zeros and one byte of room.
  ghost predicate NoneBefore(h: bytes, i: nat, len: nat) {
    forall b :: 0 <= b < i && b < 256 && ThreeAt(h, b) && Boundary(h, b) ==> |Stripped(h, b)| + 1 != len
  }

  lemma {:induction false} NoneAtStart(h: bytes, len: nat)
    ensures NoneBefore(h, 0, len) && Boundary(h, 0) && Stripped(h, 0) == []
  {
  }

  // The bytes that a step passes over are no places to go on from.
  lemma {:induction false} OverrunStep(h: bytes, i: nat, len: nat)
    requires i < |h| && i < 256 && Boundary(h, i) && |Stripped(h, i)| < len && NoneBefore(h, i, len)
    ensures if |Stripped(h, i)| + 1 == len && ThreeAt(h, i) then Overruns(h, len)
            else NoneBefore(h, if ThreeAt(h, i) then i + 3 else i + 1, len)
  {
    hide Stripped;
    assert ThreeAt(h, i) ==> Dropped(h, i + 2);
  }

  lemma {:induction false} NoneAtAll(h: bytes, i: nat, len: nat)
    requires i <= |h| && NoneBefore(h, i, len) && (i == |h| || i >= 256 || |Stripped(h, i)| >= len)
    ensures !Overruns(h, len)
  {
    if i < |h| && i < 256 {
      forall b | i <= b < |h| ensures |Stripped(h, b)| + 1 != len { StrippedPrefix(h, i, b); }
    }
  }

  // Room for 257 bytes is always enough.
  lemma {:induction false} NoOverrun(h: bytes, len: nat)
    requires len >= 257
    ensures !Overruns(h, len)
  {
    hide Stripped;
  }

  lemma {:induction false} OverrunsOneByte()
    ensures Overruns([0, 0, 3, 7], 1)
  {
    assert ThreeAt([0, 0, 3, 7], 0) && Boundary([0, 0, 3, 7], 0) && Stripped([0, 0, 3, 7], 0) == [];
  }

  lemma {:induction false} StrippedStep(h: bytes, i: nat)
    requires i < |h| && Boundary(h, i)
    ensures if i + 2 < |h| && h[i] == 0 && h[i + 1] == 0 && h[i + 2] == 3
            then Stripped(h, i + 3) == Stripped(h, i) + [0, 0] && Boundary(h, i + 3)
            else Stripped(h, i + 1) == Stripped(h, i) + [h[i]] && Boundary(h, i + 1)
  {
    if i + 2 < |h| && h[i] == 0 && h[i + 1] == 0 && h[i + 2] == 3 {
      assert Dropped(h, i + 2) && !Dropped(h, i + 1);
      assert Stripped(h, i + 2) == Stripped(h, i + 1) + [0];
    }
  }
}
