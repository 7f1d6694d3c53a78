/** The order of bytes and bits, and the numbers that codes stand for. */
module WireOrder {
  import opened Bytes
  import opened Emulation
  import A = AnnexB
  import B = Bits
  import I = Mp4Inputs
  import X = ExpGolomb

  // Words are read with the most significant byte first.
  lemma {:induction false} ReadInOrder(s: bytes)
    ensures |s| == 2 ==> Read16(s) == A.LengthAt(s, 2) == 256 * s[0] as nat + s[1] as nat
    ensures |s| == 3 ==> Read24(s) == A.LengthAt(s, 3) == 256 * Read16(s[..2]) + s[2] as nat
    ensures |s| == 4 ==> Read32(s) == A.LengthAt(s, 4) == 256 * Read24(s[..3]) + s[3] as nat
  {
    if |s| >= 2 {
      assert A.LengthAt(s, 0) == 0;
      assert A.LengthAt(s, 1) == s[0];
      assert A.LengthAt(s, 2) == 256 * s[0] as nat + s[1] as nat;
    }
    if |s| == 4 { assert A.LengthAt(s, 3) == 256 * A.LengthAt(s, 2) + s[2] as nat; }
  }

  // And written so.
  lemma {:induction false} WrittenInOrder(v: nat)
    ensures v < 0x1_0000 ==> Be16(v) == I.BeN(v, 2) == [v / 256, v % 256]
    ensures v < 0x100_0000 ==> Be24(v) == I.BeN(v, 3) == I.BeN(v / 256, 2) + [v % 256]
    ensures v < POW32 ==> Be32(v) == I.BeN(v, 4) == I.BeN(v / 256, 3) + [v % 256]
  {
    Quotients(v);
    Two(v);
    Two(v / 256);
    Two(v / 256 / 256);
    assert I.BeN(v, 3) == I.BeN(v / 256, 2) + [v % 256];
    assert I.BeN(v, 4) == I.BeN(v / 256, 3) + [v % 256];
    assert I.BeN(v / 256, 3) == I.BeN(v / 256 / 256, 2) + [v / 256 % 256];
  }

  lemma {:induction false} Two(v: nat)
    ensures I.BeN(v, 2) == [v / 256 % 256, v % 256]
  {
    assert I.BeN(v / 256 / 256, 0) == [];
    assert I.BeN(v / 256, 1) == [v / 256 % 256];
  }

  lemma {:induction false} Quotients(v: nat)
    ensures v / 0x1_0000 == v / 256 / 256 && v / 0x100_0000 == v / 256 / 256 / 256
    ensures v < 0x1_0000 ==> v / 256 < 256
    ensures v < 0x100_0000 ==> v / 256 / 256 < 256
    ensures v < POW32 ==> v / 256 / 256 / 256 < 256
  {
  }

  // Code numbers stand for 0, 1, -1, 2, -2 and so on (section 9.1.1 of ITU-T H.264).
  lemma {:induction false} SignedOrder(k: nat)
    ensures Signed(2 * k) + k == 0 && (k > 0 ==> Signed(2 * k - 1) == k)
  {
  }

  // A 03 behind two zero bytes is dropped wherever it is, and any other byte kept.
  lemma {:induction false} DroppedIff(h: bytes, i: nat)
    requires i < |h|
    ensures Stripped(h, i + 1) ==
      if i >= 2 && h[i - 2] == 0 && h[i - 1] == 0 && h[i] == 3 then Stripped(h, i) else Stripped(h, i) + [h[i]]
    ensures Stripped(h, 0) == []
  {
  }

  // A field of up to 32 bits is its value as a signed word; one that the data cuts off is -1, and of no bits 0.
  lemma {:induction false} FieldRead(s: bytes, pos: nat, n: nat)
    requires n <= 32
    ensures n == 0 ==> FieldOr(s, pos, n) == 0
    ensures n > 0 && pos + n > 8 * |s| ==> FieldOr(s, pos, n) == -1
    ensures n > 0 && pos + n <= 8 * |s| ==>
      FieldOr(s, pos, n) == if n == 32 && Bit(s, pos) == 1 then X.BitsValue(s, pos, n) - POW32 else X.BitsValue(s, pos, n)
  {
    hide Bit, X.BitsValue, Pow2;
    if 0 < n && pos + n <= 8 * |s| {
      B.Split(s, pos, 1, n - 1);
      OneBit(s, pos);
      Powers(n);
    }
  }

  lemma {:induction false} OneBit(s: bytes, pos: nat)
    requires pos / 8 < |s|
    ensures X.BitsValue(s, pos, 1) == Bit(s, pos)
  {
    hide Bit;
    assert X.BitsValue(s, pos, 0) == 0;
  }

  lemma {:induction false} Powers(n: nat)
    requires 0 < n <= 32
    ensures Pow2(n - 1) <= 0x8000_0000 && (n < 32 ==> 2 * Pow2(n - 1) <= 0x8000_0000)
    ensures n == 32 ==> Pow2(n - 1) == 0x8000_0000
  {
    PowBound(n - 1, 31);
    if n < 32 { PowBound(n, 31); }
    Pow31();
  }

  // A code that the data cuts off counts as if its low bits were all ones and it was one less.
  lemma {:induction false} CodeCut(s: bytes, pos: nat)
    requires pos <= 8 * |s| && !Complete(s, pos)
    ensures CursorUe(s, pos) == if pos == 8 * |s| then 0 else Wrap32(Pow2(X.Zeros(s, pos)) - 2)
  {
    hide Bit, X.BitsValue, Wrap32;
    ZeroBits(s, pos);
    if pos == 8 * |s| {
      assert X.Zeros(s, pos) == 0 && Pow2(0) == 1;
      assert FieldOr(s, pos + 1, 0) == 0;
      assert Wrap32(0) == 0 by { WrapSmall(); }
    }
  }

  lemma {:induction false} WrapSmall()
    ensures Wrap32(0) == 0
  {
  }
}
