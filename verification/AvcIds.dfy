/** The ids by which H.264 parameter sets are told apart, and where the sets end up. */
module AvcIds {
  import opened Bytes
  import opened ExpGolomb
  import opened Emulation
  import opened AvcSets

  // A whole code begins at bit `pos`; with 32 zeros or more in front of its one bit its number is beyond 32 bits.
  predicate CodeAt(s: bytes, pos: nat) { Complete(s, pos) && Zeros(s, pos) < 32 }

  function CodeEnd(s: bytes, pos: nat): nat { pos + 2 * Zeros(s, pos) + 1 }

  // The number of a code: its bits, read as one number, less one.
  function CodeNumber(s: bytes, pos: nat): int
    requires CodeAt(s, pos)
  {
    BitsValue(s, pos, CodeEnd(s, pos) - pos) - 1
  }

  lemma {:induction false} CodeRead(s: bytes, pos: nat)
    requires CodeAt(s, pos)
    ensures ReadUe(s, pos) == Ue(CodeNumber(s, pos) % 256, CodeEnd(s, pos))
  {
    hide Bit, BitsValue, Zeros, CursorUe, Wrap32, ReadUe;
    UeMeaning(s, pos);
    ReadersAgree(s, pos);
    WrapLow(CodeNumber(s, pos));
  }

  lemma {:induction false} LowIsPow(z: nat)
    ensures Low8(z) as nat == Pow2(z) % 256
  {
    if z < 32 { SmallPow(z); } else { PowLow(z); }
  }

  // A code that the end of the data cuts off takes all that is left. Behind its one bit the bits that are there count
  // as its low ones; without a one bit it is read as if the last zero were that bit.
  lemma {:induction false} CodeCutOff(s: bytes, pos: nat)
    requires pos < 8 * |s| && !Complete(s, pos)
    ensures var z := Zeros(s, pos);
      && pos + z <= 8 * |s|
      && ReadUe(s, pos) == if pos + z == 8 * |s| then Ue((Pow2(z - 1) - 1) % 256, 8 * |s|)
                           else Ue((Pow2(z) - 1 + BitsValue(s, pos + z + 1, 8 * |s| - pos - z - 1)) % 256, 8 * |s|)
  {
    hide Bit, Low8, Pow2;
    ZeroBits(s, pos);
    var z := Zeros(s, pos);
    LowIsPow(z);
    if pos + z == 8 * |s| {
      LowIsPow(z - 1);
      assert BitsValue(s, pos + z, 0) == 0;
      LowSum(Pow2(z - 1), Low8(z - 1), 0);
    } else {
      LowSum(Pow2(z), Low8(z), BitsValue(s, pos + z + 1, 8 * |s| - pos - z - 1));
    }
  }

  // Behind the end there is nothing to take.
  lemma {:induction false} CodeBehind(s: bytes, pos: nat)
    requires pos >= 8 * |s|
    ensures ReadUe(s, pos) == Ue(255, pos)
  {
    assert BitsValue(s, pos, 0) == 0;
  }

  // A sequence parameter set is stored under the number of the code behind its first four bytes.
  lemma {:induction false} SpsIdMeaning(nalu: bytes)
    requires CodeAt(nalu, 32)
    ensures SpsId(nalu) == CodeNumber(nalu, 32) % 256
  {
    hide ReadUe, CodeNumber, CodeEnd, CodeAt;
    CodeRead(nalu, 32);
  }

  // A picture parameter set under those of the two codes behind its first byte: its own number, then the other set's.
  lemma {:induction false} PpsIdMeaning(nalu: bytes)
    requires CodeAt(nalu, 8) && CodeAt(nalu, CodeEnd(nalu, 8))
    ensures PpsId(nalu) == (CodeNumber(nalu, 8) % 256, CodeNumber(nalu, CodeEnd(nalu, 8)) % 256)
  {
    hide ReadUe, CodeNumber, CodeEnd, CodeAt;
    CodeRead(nalu, 8);
    CodeRead(nalu, CodeEnd(nalu, 8));
  }

  // ---------------------------------------------------------------------------
  // Where a set is put

  // A set that is stored takes the place of the first one with its id, or follows all others.
  lemma {:induction false} PutPlaces<K>(xs: seq<bytes>, key: bytes -> K, limit: nat, off: nat, nalu: bytes)
    ensures var p, i := PutInto(xs, key, limit, off, nalu), Find(xs, key, key(nalu));
      && (p.result != 1 ==> p.list == xs)
      && (p.result == 1 ==> p.list == if i < |xs| then xs[..i] + [nalu] + xs[i + 1..] else xs + [nalu])
  {
    var i := Find(xs, key, key(nalu));
    if i < |xs| { assert xs[i := nalu] == xs[..i] + [nalu] + xs[i + 1..]; }
  }

  // Too short a parameter set is refused, and every other unit than a parameter set answers 0.
  lemma {:induction false} OtherUnits(s: Sets, nalu: bytes)
    requires nalu != []
    ensures NalType(nalu) != NAL_SPS && NalType(nalu) != NAL_PPS ==> Update(s, nalu) == (s, 0)
    ensures NalType(nalu) == NAL_SPS && |nalu| < 5 ==> Update(s, nalu) == (s, -1)
    ensures NalType(nalu) == NAL_PPS && |nalu| < 2 ==> Update(s, nalu) == (s, -1)
  {
  }

  // When an update is refused, for all other parameter sets: there is no room, or the table is full.
  lemma {:induction false} RefusedIff(s: Sets, nalu: bytes)
    requires nalu != [] && Exact(s) && |s.pps| < PPS_WRAP - 1
    requires NalType(nalu) == NAL_SPS ==> |nalu| >= 5
    requires NalType(nalu) == NAL_PPS ==> |nalu| >= 2
    ensures Update(s, nalu).1 == -1 <==>
      if NalType(nalu) == NAL_SPS then
        if SpsId(nalu) in SpsMap(s) then
          SpsMap(s)[SpsId(nalu)] != nalu && s.off - |SpsMap(s)[SpsId(nalu)]| + |nalu| > ARENA
        else |s.sps| == MAX_SPS || s.off + |nalu| > ARENA
      else
        NalType(nalu) == NAL_PPS &&
        if PpsId(nalu) in PpsMap(s) then
          PpsMap(s)[PpsId(nalu)] != nalu && s.off - |PpsMap(s)[PpsId(nalu)]| + |nalu| > ARENA
        else s.off + |nalu| > ARENA
  {
    hide ToMap, TotalLength, SpsId, PpsId;
    if NalType(nalu) == NAL_SPS {
      PutMeaning(s.sps, SpsId, MAX_SPS, s.off, nalu, TotalLength(s.pps));
    } else if NalType(nalu) == NAL_PPS {
      PutMeaning(s.pps, PpsId, PPS_WRAP, s.off, nalu, TotalLength(s.sps));
    }
  }

  // ---------------------------------------------------------------------------
  // An example

  lemma {:induction false} NumberZero(nalu: bytes, pos: nat)
    requires pos / 8 < |nalu| && Bit(nalu, pos) == 1
    ensures ReadUe(nalu, pos) == Ue(0, pos + 1)
  {
    hide Bit;
  }

  lemma {:induction false} NumberOne(nalu: bytes, pos: nat)
    requires (pos + 2) / 8 < |nalu| && Bit(nalu, pos) == 0 && Bit(nalu, pos + 1) == 1 && Bit(nalu, pos + 2) == 0
    ensures ReadUe(nalu, pos) == Ue(1, pos + 3)
  {
    hide Bit;
    assert Zeros(nalu, pos + 1) == 0;
    assert BitsValue(nalu, pos + 2, 0) == 0;
  }

  lemma {:induction false} Bits32(nalu: bytes)
    requires |nalu| >= 5
    ensures Bit(nalu, 32) == nalu[4] as nat / 0x80 % 2 && Bit(nalu, 33) == nalu[4] as nat / 0x40 % 2
    ensures Bit(nalu, 34) == nalu[4] as nat / 0x20 % 2
    ensures Bit(nalu, 8) == nalu[1] as nat / 0x80 % 2 && Bit(nalu, 9) == nalu[1] as nat / 0x40 % 2
  {
    Powers();
    hide Pow2;
  }

  lemma {:induction false} Powers()
    ensures Pow2(7) == 0x80 && Pow2(6) == 0x40 && Pow2(5) == 0x20
  {
    assert Pow2(4) == 16;
  }

  lemma {:induction false} BitsOfPps(nalu: bytes)
    requires |nalu| >= 2
    ensures Bit(nalu, 8) == nalu[1] as nat / 0x80 % 2 && Bit(nalu, 9) == nalu[1] as nat / 0x40 % 2
  {
    Powers();
    hide Pow2;
  }

  // Sets that begin like those of the example: the first sequence parameter set has id 0, the second id 1.
  lemma {:induction false} ExampleIds(nalu: bytes)
    ensures |nalu| >= 5 && nalu[4] == 0xAB ==> SpsId(nalu) == 0
    ensures |nalu| >= 5 && nalu[4] == 0x4B ==> SpsId(nalu) == 1
    ensures |nalu| >= 2 && nalu[1] == 0xCE ==> PpsId(nalu) == (0, 0)
  {
    hide Bit, ReadUe;
    if |nalu| >= 5 {
      Bits32(nalu);
      if nalu[4] == 0xAB { NumberZero(nalu, 32); }
      if nalu[4] == 0x4B { NumberOne(nalu, 32); }
    }
    if |nalu| >= 2 && nalu[1] == 0xCE {
      BitsOfPps(nalu);
      NumberZero(nalu, 8);
      NumberZero(nalu, 9);
    }
  }

  const SPS0: bytes := [0x67, 0x42, 0xE0, 0x1E, 0xAB, 0xCD]
  const SPS1: bytes := [0x67, 0x42, 0xE0, 0x1E, 0x4B, 0xCD, 0x01]
  const SPS2: bytes := [0x67, 0x42, 0xE0, 0x1E, 0xAB]
  const PPS0: bytes := [0x28, 0xCE, 0x3C, 0x80]
  const PPS1: bytes := [0x28, 0xCE, 0x3C, 0x80, 0x01]
  const PPS2: bytes := [0x28, 0xCE, 0x3C]

  // With room to spare, a set takes the place of the only one with its key, or follows all others.
  lemma {:induction false} PutOver<K(!new)>(xs: seq<bytes>, key: bytes -> K, limit: nat, off: nat, nalu: bytes)
    requires xs != [] && key(xs[0]) == key(nalu) && xs[0] != nalu && off + |nalu| <= ARENA
    ensures PutInto(xs, key, limit, off, nalu) == Put([nalu] + xs[1..], off - |xs[0]| + |nalu|, 1)
  {
    assert xs[0 := nalu] == [nalu] + xs[1..];
  }

  lemma {:induction false} PutNew<K(!new)>(xs: seq<bytes>, key: bytes -> K, limit: nat, off: nat, nalu: bytes)
    requires |xs| <= 1 && (xs != [] ==> key(xs[0]) != key(nalu)) && |xs| < limit && off + |nalu| <= ARENA
    ensures PutInto(xs, key, limit, off, nalu) == Put(xs + [nalu], off + |nalu|, 1)
  {
    if xs != [] { assert xs[1..] == []; }
  }

  lemma {:induction false} PutHeld<K(!new)>(xs: seq<bytes>, key: bytes -> K, limit: nat, off: nat, nalu: bytes)
    requires |xs| == 2 && key(xs[0]) != key(nalu) && xs[1] == nalu
    ensures PutInto(xs, key, limit, off, nalu) == Put(xs, off, 0)
  {
    assert xs[1..][0] == nalu && Find(xs[1..], key, key(nalu)) == 0;
  }

  // A second set is added, a longer or shorter one with the same id takes the place of the first, and a set that is
  // held already changes nothing.
  lemma {:induction false} ExampleRun()
    ensures Update(NO_SETS, SPS0) == (Sets([SPS0], [], 6), 1)
    ensures Update(Sets([SPS0], [], 6), PPS0) == (Sets([SPS0], [PPS0], 10), 1)
    ensures Update(Sets([SPS0], [PPS0], 10), SPS1) == (Sets([SPS0, SPS1], [PPS0], 17), 1)
    ensures Update(Sets([SPS0, SPS1], [PPS0], 17), PPS1) == (Sets([SPS0, SPS1], [PPS1], 18), 1)
    ensures Update(Sets([SPS0, SPS1], [PPS1], 18), SPS2) == (Sets([SPS2, SPS1], [PPS1], 17), 1)
    ensures Update(Sets([SPS2, SPS1], [PPS1], 17), PPS2) == (Sets([SPS2, SPS1], [PPS2], 15), 1)
    ensures Update(Sets([SPS2, SPS1], [PPS2], 15), SPS1) == (Sets([SPS2, SPS1], [PPS2], 15), 0)
  {
    hide SpsId, PpsId, PutInto, Find;
    ExampleKeys();
    PutNew([], SpsId, MAX_SPS, 0, SPS0);
    PutNew([], PpsId, PPS_WRAP, 6, PPS0);
    PutNew([SPS0], SpsId, MAX_SPS, 10, SPS1);
    PutOver([PPS0], PpsId, PPS_WRAP, 17, PPS1);
    PutOver([SPS0, SPS1], SpsId, MAX_SPS, 18, SPS2);
    PutOver([PPS1], PpsId, PPS_WRAP, 17, PPS2);
    PutHeld([SPS2, SPS1], SpsId, MAX_SPS, 15, SPS1);
    ExampleLists();
  }

  lemma {:induction false} ExampleLists()
    ensures [] + [SPS0] == [SPS0] && [] + [PPS0] == [PPS0] && [SPS0] + [SPS1] == [SPS0, SPS1]
    ensures [PPS1] + [PPS0][1..] == [PPS1] && [PPS2] + [PPS1][1..] == [PPS2] && [SPS2] + [SPS0, SPS1][1..] == [SPS2, SPS1]
  {
  }

  lemma {:induction false} ExampleKeys()
    ensures SpsId(SPS0) == SpsId(SPS2) == 0 && SpsId(SPS1) == 1
    ensures PpsId(PPS0) == PpsId(PPS1) == PpsId(PPS2) == (0, 0)
    ensures SPS0 != SPS2 && PPS0 != PPS1 && PPS1 != PPS2
  {
    hide SpsId, PpsId;
    ExampleIds(SPS0);
    ExampleIds(SPS1);
    ExampleIds(SPS2);
    ExampleIds(PPS0);
    ExampleIds(PPS1);
    ExampleIds(PPS2);
  }
}
