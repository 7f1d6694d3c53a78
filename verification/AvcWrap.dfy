/** A run in which the counter of stored H.264 sets wraps. */
module AvcWrap {
  import opened Bytes
  import opened ExpGolomb
  import opened Bits
  import opened AvcSets

  // Picture parameter sets with nine-bit ids behind eight zeros, of which the low eight bits count.
  function Numbered(x: nat): bytes
    requires x < 256
  {
    [0x68, 0, 128 + x / 2, x % 2 * 128]
  }

  function AllNumbered(n: nat): (us: seq<bytes>)
    requires n <= 256
    ensures |us| == n && forall i :: 0 <= i < n ==> us[i] == Numbered(i)
  {
    seq(n, i requires 0 <= i < n => Numbered(i))
  }

  lemma {:induction false} ZerosCounted(data: bytes, off: nat, z: nat)
    requires (off + z) / 8 < |data| && Bit(data, off + z) == 1
    requires forall i :: off <= i < off + z ==> Bit(data, i) == 0
    ensures Zeros(data, off) == z
    decreases z
  {
    if z > 0 {
      assert Bit(data, off) == 0;
      ZerosCounted(data, off + 1, z - 1);
    }
  }

  lemma {:induction false} NumberedId(x: nat)
    requires x < 256
    ensures PpsId(Numbered(x)).0 as int == (x - 1) % 256
  {
    hide Zeros, BitsValue, Bit, Pow2;
    var u := Numbered(x);
    forall i | 8 <= i < 16 ensures Bit(u, i) == 0 { ZeroByte(u, i - 8); }
    FirstBit(u);
    ZerosCounted(u, 8, 8);
    NumberedBits(u, x);
  }

  lemma {:induction false} ZeroByte(u: bytes, j: nat)
    requires |u| == 4 && u[1] == 0 && j < 8
    ensures Bit(u, 8 + j) == 0
  {
    BitInByte(u, 1, j);
  }

  lemma {:induction false} FirstBit(u: bytes)
    requires |u| == 4 && u[2] >= 128
    ensures Bit(u, 16) == 1
  {
    BitInByte(u, 2, 0);
    assert Pow2(7) == 128;
  }

  lemma {:induction false} NumberedBits(u: bytes, x: nat)
    requires x < 256 && u == Numbered(x)
    ensures BitsValue(u, 17, 8) == x
  {
    hide BitsValue, Bit, Part;
    InByte(u, 2, 1, 7);
    InByte(u, 3, 0, 1);
    Split(u, 17, 7, 1);
    NumberedParts(x);
  }

  lemma {:induction false} NumberedParts(x: nat)
    requires x < 256
    ensures Part(128 + x / 2, 1, 7) == x / 2 && Part(x % 2 * 128, 0, 1) == x % 2 && Pow2(1) == 2
  {
    assert Pow2(0) == 1 && Pow2(1) == 2 && Pow2(7) == 128;
    hide Pow2;
    assert (128 + x / 2) % 128 == x / 2;
  }

  lemma {:induction false} FindNone<K>(xs: seq<bytes>, key: bytes -> K, k: K)
    requires forall i :: 0 <= i < |xs| ==> key(xs[i]) != k
    ensures Find(xs, key, k) == |xs|
    decreases |xs|
  {
    if xs != [] {
      assert key(xs[0]) != k;
      FindNone(xs[1..], key, k);
    }
  }

  lemma {:induction false} NewNumber(n: nat)
    requires n < 256
    ensures Find(AllNumbered(n), PpsId, PpsId(Numbered(n))) == n
  {
    hide PpsId;
    var us := AllNumbered(n);
    NumberedId(n);
    forall i | 0 <= i < n ensures PpsId(us[i]) != PpsId(Numbered(n)) { NumberedId(i); }
    FindNone(us, PpsId, PpsId(Numbered(n)));
  }

  lemma {:induction false} Shape(n: nat)
    requires n < 256
    ensures |Numbered(n)| == 4 && NalType(Numbered(n)) == NAL_PPS
    ensures AllNumbered(n + 1)[..n] == AllNumbered(n) && AllNumbered(n + 1) == AllNumbered(n) + [Numbered(n)]
  {
  }

  lemma {:induction false} AddNumbered(n: nat)
    requires n < 255
    ensures UpdatePps(Sets([], AllNumbered(n), 4 * n), Numbered(n)).0 == Sets([], AllNumbered(n + 1), 4 * (n + 1))
  {
    Shape(n);
    NewNumber(n);
    hide PpsId, Find, Numbered, UpdatePps;
    UpdatePpsCases(Sets([], AllNumbered(n), 4 * n), Numbered(n));
  }

  lemma {:induction false} RunNumbered(n: nat)
    requires n < 256
    ensures Run(AllNumbered(n)) == Sets([], AllNumbered(n), 4 * n)
  {
    hide PpsId, Find, Numbered, UpdatePps;
    if n > 0 {
      Shape(n - 1);
      RunNumbered(n - 1);
      AddNumbered(n - 1);
    }
  }

  // A run after which the store holds 255 picture parameter sets; one more is answered with 1, and no set is left while
  // all bytes stay.
  lemma {:induction false} WrapReached() returns (nalus: seq<bytes>, nalu: bytes)
    ensures (forall i :: 0 <= i < |nalus| ==> nalus[i] != []) && nalu != []
    ensures |Run(nalus).pps| == 255 && Wraps(Run(nalus), nalu)
    ensures Update(Run(nalus), nalu) == (Sets([], [], 1024), 1) && !Exact(Sets([], [], 1024))
  {
    hide PpsId, Find, Run;
    var n := PPS_WRAP - 1;
    nalus, nalu := AllNumbered(n), Numbered(n);
    RunNumbered(n);
    NewNumber(n);
    Shape(n);
    hide Numbered, UpdatePps;
    UpdatePpsCases(Sets([], nalus, 4 * n), nalu);
  }
}
