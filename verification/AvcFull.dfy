/** A run that fills the store with more H.264 sequence parameter sets than a record can announce. */
module AvcFull {
  import opened Bytes
  import opened ExpGolomb
  import opened Bits
  import opened AvcSets
  import W = AvcWrap
  import R = AvcRecord

  // Sequence parameter sets with ids from 31 on: five zero bits, a one bit, and five bits for `x`.
  function Numbered(x: nat): bytes
    requires x < 32
  {
    [0x67, 66, 0, 30, 4 + x / 8, x % 8 * 32]
  }

  function AllNumbered(n: nat): (us: seq<bytes>)
    requires n <= 32
    ensures |us| == n && forall i :: 0 <= i < n ==> us[i] == Numbered(i)
  {
    seq(n, i requires 0 <= i < n => Numbered(i))
  }

  lemma {:induction false} LeadBits(u: bytes, x: nat)
    requires x < 32 && u == Numbered(x)
    ensures forall i :: 32 <= i < 37 ==> Bit(u, i) == 0
    ensures Bit(u, 37) == 1
  {
    forall i | 32 <= i < 37 ensures Bit(u, i) == 0 {
      BitInByte(u, 4, i - 32);
      LeadPowers(i - 32, x / 8);
    }
    BitInByte(u, 4, 5);
    assert Pow2(0) == 1 && Pow2(1) == 2 && Pow2(2) == 4;
  }

  lemma {:induction false} LeadPowers(j: nat, hi: nat)
    requires j < 5 && hi < 4
    ensures (4 + hi) / Pow2(7 - j) % 2 == 0
  {
    assert Pow2(3) == 8 && Pow2(4) == 16 && Pow2(5) == 32;
    assert Pow2(6) == 64 && Pow2(7) == 128;
  }

  lemma {:induction false} NumberedBits(u: bytes, x: nat)
    requires x < 32 && u == Numbered(x)
    ensures BitsValue(u, 38, 5) == x
  {
    hide BitsValue, Bit, Part;
    InByte(u, 4, 6, 2);
    InByte(u, 5, 0, 3);
    Split(u, 38, 2, 3);
    NumberedParts(x);
  }

  lemma {:induction false} NumberedParts(x: nat)
    requires x < 32
    ensures Part(4 + x / 8, 6, 2) == x / 8 && Part(x % 8 * 32, 0, 3) == x % 8 && Pow2(3) == 8
  {
    assert Pow2(0) == 1 && Pow2(2) == 4 && Pow2(3) == 8 && Pow2(5) == 32;
    hide Pow2;
    assert (4 + x / 8) % 4 == x / 8;
  }

  lemma {:induction false} NumberedId(x: nat)
    requires x < 32
    ensures SpsId(Numbered(x)) as int == 31 + x
  {
    hide Zeros, BitsValue, Bit, Pow2;
    var u := Numbered(x);
    LeadBits(u, x);
    W.ZerosCounted(u, 32, 5);
    NumberedBits(u, x);
  }

  lemma {:induction false} NewNumber(n: nat)
    requires n < 32
    ensures Find(AllNumbered(n), SpsId, SpsId(Numbered(n))) == n
  {
    hide SpsId;
    var us := AllNumbered(n);
    NumberedId(n);
    forall i | 0 <= i < n ensures SpsId(us[i]) != SpsId(Numbered(n)) { NumberedId(i); }
    W.FindNone(us, SpsId, SpsId(Numbered(n)));
  }

  lemma {:induction false} Shape(n: nat)
    requires n < 32
    ensures |Numbered(n)| == 6 && NalType(Numbered(n)) == NAL_SPS
    ensures AllNumbered(n + 1)[..n] == AllNumbered(n) && AllNumbered(n + 1) == AllNumbered(n) + [Numbered(n)]
  {
  }

  lemma {:induction false} RunNumbered(n: nat)
    requires n <= 32
    ensures Run(AllNumbered(n)) == Sets(AllNumbered(n), [], 6 * n)
  {
    hide SpsId, Find, Numbered, Update;
    if n > 0 {
      Shape(n - 1);
      RunNumbered(n - 1);
      AddNumbered(n - 1);
    }
  }

  lemma {:induction false} AddNumbered(n: nat)
    requires n < 32
    ensures Update(Sets(AllNumbered(n), [], 6 * n), Numbered(n)).0 == Sets(AllNumbered(n + 1), [], 6 * (n + 1))
  {
    Shape(n);
    NewNumber(n);
    hide SpsId, Find, Numbered, AllNumbered;
  }

  lemma {:induction false} NumberedShort(us: seq<bytes>)
    requires forall i :: 0 <= i < |us| ==> |us[i]| == 6
    ensures R.AllShort(us)
    decreases |us|
  {
    if us != [] { NumberedShort(us[1..]); }
  }

  lemma {:induction false} TooManySps(r: R.Record)
    requires R.Valid(r) && |r.sps| == R.MAX_SPS
    ensures var data := R.Saved(r, 6 + |R.Sets(r)|);
      data.Some? && (R.Load(data.value).None? || !R.SameAs(R.Load(data.value).value, r))
  {
    hide R.Units, R.Load, R.SameAs, R.Sets;
    R.RoundTrip(r, 6 + |R.Sets(r)|);
  }

  // A run after which the store holds 32 sequence parameter sets; its record announces none of them, and does not come
  // back.
  lemma {:induction false} FullNotLoadedBack() returns (nalus: seq<bytes>)
    ensures (forall i :: 0 <= i < |nalus| ==> nalus[i] != []) && |Run(nalus).sps| == 32
    ensures var r := R.Record(66, 0, 30, 4, Run(nalus).sps, Run(nalus).pps, 0, 0, 0);
      && R.Valid(r)
      && var data := R.Saved(r, 6 + |R.Sets(r)|);
         data.Some? && (R.Load(data.value).None? || !R.SameAs(R.Load(data.value).value, r))
  {
    var n := R.MAX_SPS;
    nalus := AllNumbered(n);
    RunNumbered(n);
    NumberedShort(nalus);
    NumberedShort([]);
    hide Run, Numbered, AllNumbered, R.AllShort, R.Units, R.Load, R.SameAs, R.Sets, R.Saved;
    TooManySps(R.Record(66, 0, 30, 4, nalus, [], 0, 0, 0));
  }
}
