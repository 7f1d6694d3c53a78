/** Where the ids of H.265 parameter sets are read, and what an update does to the list of units. */
module HevcRules {
  import opened Bytes
  import opened Options
  import opened Emulation
  import opened HevcRecord
  import opened HevcIds
  import opened HevcStore
  import opened AvcIds
  import ExpGolomb

  // ---------------------------------------------------------------------------
  // The size of profile, tier and level

  // The sub-layers, of the first `n`, that have the flag at bit `at` of their pair set.
  ghost function Flagged(d: bytes, at: nat, n: nat): set<nat>
    requires n <= 7 && 96 <= at <= 97 && |d| >= 14
  {
    set i: nat | i < n && Bit(d, at + 2 * i) == 1
  }

  lemma {:induction false} FlaggedNext(d: bytes, at: nat, n: nat)
    requires n < 7 && 96 <= at <= 97 && |d| >= 14
    ensures |Flagged(d, at, 0)| == 0
    ensures |Flagged(d, at, n + 1)| == |Flagged(d, at, n)| + Bit(d, at + 2 * n)
  {
    hide Bit;
    if Bit(d, at + 2 * n) == 1 {
      assert Flagged(d, at, n + 1) == Flagged(d, at, n) + {n};
    } else {
      assert Flagged(d, at, n + 1) == Flagged(d, at, n);
    }
    assert Flagged(d, at, 0) == {};
  }

  lemma {:induction false} PresentCounts(d: bytes, n: nat)
    requires n <= 7 && |d| >= 14
    ensures Present(d, n) == 11 * |Flagged(d, 96, n)| + |Flagged(d, 97, n)|
  {
    hide Bit;
    if n == 0 {
      FlaggedNext(d, 96, 0);
      FlaggedNext(d, 97, 0);
    } else {
      PresentCounts(d, n - 1);
      FlaggedNext(d, 96, n - 1);
      FlaggedNext(d, 97, n - 1);
    }
  }

  // In bits: 96 for the whole stream and, if there are sub-layers, 16 for their flags, 88 for each that has a profile
  // and 8 for each that has a level (section 7.3.3 of ITU-T H.265).
  ghost function TierBits(d: bytes, layers: nat): nat
    requires layers <= 7 && (layers > 0 ==> |d| >= 14)
  {
    if layers == 0 then 96 else 96 + 16 + 88 * |Flagged(d, 96, layers)| + 8 * |Flagged(d, 97, layers)|
  }

  // The size is known exactly when that many bits are there.
  lemma {:induction false} TierMeaning(d: bytes, layers: nat)
    requires layers <= 7
    ensures layers > 0 && |d| < 14 ==> TierSize(d, layers) == None
    ensures layers == 0 || |d| >= 14 ==>
      var n := TierBits(d, layers);
      if 8 * |d| >= n then TierSize(d, layers).Some? && 8 * TierSize(d, layers).value == n
      else TierSize(d, layers) == None
  {
    hide Present, Flagged;
    if |d| >= 14 { PresentCounts(d, layers); }
  }

  // ---------------------------------------------------------------------------
  // The ids

  // A video parameter set has its id in the first four bits behind the unit header.
  lemma {:induction false} VpsKeyMeaning(d: bytes)
    requires |d| >= 18
    ensures Bit(d, 16) == d[2] / 0x80 % 2 && VpsKey(d).other == Some(0)
    ensures VpsKey(d).own == 8 * Bit(d, 16) + 4 * Bit(d, 17) + 2 * Bit(d, 18) + Bit(d, 19)
  {
    Powers();
    assert Pow2(4) == 16;
    assert Bit(d, 16) == d[2] / 0x80 % 2 && Bit(d, 17) == d[2] / 0x40 % 2 && Bit(d, 18) == d[2] / 0x20 % 2;
    assert Bit(d, 19) == d[2] / 0x10 % 2;
    TopFour(d[2]);
  }

  lemma {:induction false} TopFour(b: byte)
    ensures b as nat / 16 == 8 * (b / 0x80 % 2) + 4 * (b / 0x40 % 2) + 2 * (b / 0x20 % 2) + b / 0x10 % 2
  {
  }

  // A sequence parameter set: the video parameter set that it refers to in those four bits, its own id in the code
  // behind the profile, tier and level of as many sub-layers as the next three bits say.
  lemma {:induction false} SpsKeyMeaning(d: bytes, size: nat)
    requires |d| >= 15 && TierSize(d[3..], d[2] as nat / 2 % 8) == Some(size) && CodeAt(d, 24 + 8 * size)
    ensures SpsKey(d) == Key(CodeNumber(d, 24 + 8 * size) % 256, Some(d[2] as nat / 16))
  {
    hide ExpGolomb.ReadUe, CodeNumber, CodeEnd, CodeAt, TierSize;
    CodeRead(d, 24 + 8 * size);
  }

  // When that part is cut off, the code at bit 16 is taken for the id.
  lemma {:induction false} SpsKeyCutOff(d: bytes)
    requires |d| >= 15 && TierSize(d[3..], d[2] as nat / 2 % 8) == None && CodeAt(d, 16)
    ensures SpsKey(d) == Key(CodeNumber(d, 16) % 256, Some(d[2] as nat / 16))
  {
    hide ExpGolomb.ReadUe, CodeNumber, CodeEnd, CodeAt, TierSize;
    CodeRead(d, 16);
  }

  // A picture parameter set: its own id in the first code behind the unit header, and then the id of the sequence
  // parameter set. The program takes them the other way round.
  lemma {:induction false} PpsKeyMeaning(d: bytes)
    requires |d| >= 3 && CodeAt(d, 16) && CodeAt(d, CodeEnd(d, 16))
    ensures PpsKey(d) == Key(CodeNumber(d, CodeEnd(d, 16)) % 256, Some(CodeNumber(d, 16) % 256))
  {
    hide ExpGolomb.ReadUe, CodeNumber, CodeEnd, CodeAt;
    CodeRead(d, 16);
    CodeRead(d, CodeEnd(d, 16));
  }

  // ---------------------------------------------------------------------------
  // The list of units

  lemma {:induction false} FoundKind(us: seq<Unit>, kind: nat, own: byte, mine: byte, other: byte, room: nat)
    requires IsSet(kind)
    ensures var i := FindUnit(us, kind, own, mine, other, room); i < |us| ==> us[i].kind == kind
    decreases |us|
  {
    hide KeyIn, Or;
    if us != [] {
      FoundKind(us[1..], kind, own, mine, other, room);
      if us[0].kind == kind {
        FoundKind(us[1..], kind, own, mine, Or(KeyIn(kind, us[0].data, room).other, other), room);
      }
    }
  }

  // The unit at place `i`, which is of that kind, has new bytes, or a complete unit was added behind all others.
  ghost predicate PutIn(us: seq<Unit>, kind: nat, x: bytes, v: seq<Unit>) {
    || v == us + [Unit(kind, 1, x)]
    || exists i :: 0 <= i < |us| && us[i].kind == kind && v == us[..i] + [us[i].(data := x)] + us[i + 1..]
  }

  lemma {:induction false} CopyPlaces(us: seq<Unit>, kind: nat, x: bytes, off: nat, unset: Unset)
    requires IsSet(kind) && off <= ROOM
    ensures var r := SetCopied(us, kind, x, off, unset);
      && (r.result == 1 || r.result == 0 || r.result == -1)
      && (r.result != 1 ==> r.units == us) && (r.result == 1 ==> PutIn(us, kind, x, r.units))
      && (|x| < Shortest(kind) ==> r.result == -1)
  {
    hide KeyIn, Or, FindUnit;
    if |x| >= Shortest(kind) {
      var key := KeyIn(kind, x, ROOM - off);
      var i := FindUnit(us, kind, key.own, Or(key.other, unset.mine), unset.other, ROOM - off);
      FoundKind(us, kind, key.own, Or(key.other, unset.mine), unset.other, ROOM - off);
      if i < |us| { assert us[i := us[i].(data := x)] == us[..i] + [us[i].(data := x)] + us[i + 1..]; }
    }
  }

  // Clearing SEI units leaves those of every other type, in order.
  lemma {:induction false} ClearedUnits(us: seq<Unit>, kind: nat)
    ensures DataOf(WithoutSei(us), kind) == if kind == 39 || kind == 40 then [] else DataOf(us, kind)
    ensures forall i :: 0 <= i < |WithoutSei(us)| ==> WithoutSei(us)[i] in us
    decreases |us|
  {
    if us != [] {
      ClearedUnits(us[1..], kind);
      var first, rest := if IsSei(us[0]) then [] else [us[0]], WithoutSei(us[1..]);
      DataConcat(first, rest, kind);
      DataConcat([us[0]], us[1..], kind);
      assert us == [us[0]] + us[1..] && DataOf([], kind) == [];
    }
  }

  // What an update does to the list: nothing, unless it is a parameter set; a video parameter set clears the SEI
  // units first, whether it is stored or not; and only an answer of 1 puts the set in.
  lemma {:induction false} UpdatePlaces(us: seq<Unit>, x: bytes, unset: Unset)
    requires x != [] && UnitsTotal(us) <= ROOM
    ensures var kind := x[0] as nat / 2 % 64;
      var r, from := Updated(us, x, unset), if kind == VPS then WithoutSei(us) else us;
      && (kind != 32 && kind != 33 && kind != 34 ==> r == Outcome(us, 0))
      && (r.result == 1 || r.result == 0 || r.result == -1)
      && (r.result != 1 ==> r.units == from) && (r.result == 1 ==> PutIn(from, kind, x, r.units))
      && (IsSet(kind) && |x| < Shortest(kind) ==> r.result == -1)
  {
    hide SetCopied, WithoutSei, PutIn;
    var kind := x[0] as nat / 2 % 64;
    if kind == VPS {
      WithoutSeiTotal(us);
      CopyPlaces(WithoutSei(us), VPS, x, UnitsTotal(WithoutSei(us)), unset);
    } else if kind == SPS || kind == PPS {
      CopyPlaces(us, kind, x, UnitsTotal(us), unset);
    }
  }

  // A video parameter set is at least three bytes long, a sequence parameter set fifteen, a picture parameter set three.
  lemma {:induction false} ShortestSets()
    ensures Shortest(32) == 3 && Shortest(33) == 15 && Shortest(34) == 3
  {
  }
}
