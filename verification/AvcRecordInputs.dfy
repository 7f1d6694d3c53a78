/** What the AVC configuration record looks like, and what any input is loaded as. */
module AvcRecordInputs {
  import opened Bytes
  import opened Options
  import opened AvcRecord

  // ---------------------------------------------------------------------------
  // The fixed bytes

  // Version 1; the bits around the length size and the number of sets are ones (section 5.2.4.1.1 of ISO/IEC 14496-15).
  lemma {:induction false} HeadBits(r: Record)
    requires Valid(r)
    ensures var b := Head(r); b[0] == 1 && b[4] as nat / 4 == 0x3F && b[5] as nat / 0x20 == 7
  {
  }

  // The extension holds the chroma format and both bit depths behind bits that are ones, and announces no further sets.
  lemma {:induction false} ExtensionBits(r: Record)
    requires Valid(r)
    ensures var b := Extension(r);
      && |b| == 4 && b[0] as nat % 4 == r.chroma && b[1] as nat % 8 == r.lumaDepth && b[2] as nat % 8 == r.chromaDepth
      && b[0] as nat / 4 == 0x3F && b[1] as nat / 8 == 0x1F && b[2] as nat / 8 == 0x1F && b[3] == 0
  {
  }

  // Twelve profiles have it: the High ones, CAVLC 4:4:4 Intra, and the scalable, multiview and depth ones.
  lemma {:induction false} HighProfiles()
    ensures HighProfile(100) && HighProfile(110) && HighProfile(122) && HighProfile(244) && HighProfile(44)
    ensures HighProfile(83) && HighProfile(86) && HighProfile(118) && HighProfile(128)
    ensures HighProfile(138) && HighProfile(139) && HighProfile(134)
    ensures forall p: byte :: HighProfile(p) ==> p in {44, 83, 86, 100, 110, 118, 122, 128, 134, 138, 139, 244}
  {
  }

  // The record is saved with the extension when the profile has one and it fits, without it when only that fits, and
  // otherwise not at all.
  lemma {:induction false} SavedForms(r: Record, room: nat)
    requires Valid(r)
    ensures var plain := Head(r) + Sets(r);
      var full := plain + Extension(r);
      var s := Saved(r, room);
      && |full| == |plain| + 4
      && (s == None <==> room < |plain|)
      && (s.Some? ==> |s.value| <= room && (s.value == plain || (HighProfile(r.profile) && s.value == full)))
      && (HighProfile(r.profile) && room >= |full| ==> s == Some(full))
  {
    hide HighProfile, Head, Sets;
    assert Head(r) + Sets(r) + [] == Head(r) + Sets(r);
  }

  // ---------------------------------------------------------------------------
  // Any input

  // One turn of the loop.
  predicate Whole(data: bytes, used: nat, behind: nat)
    requires |data| > 2
  {
    2 + Read16(data[..2]) + behind <= |data| && used + Read16(data[..2]) <= ARENA
  }

  lemma {:induction false} LoadNext(data: bytes, count: nat, used: nat, behind: nat) returns (u: bytes, rest: bytes)
    requires count > 0 && |data| > 2
    ensures !Whole(data, used, behind) ==> LoadUnits(data, count, used, behind) == None
    ensures Whole(data, used, behind) ==>
      && |u| < 0x1_0000 && data == Be16(|u|) + (u + rest) && |rest| >= behind && used + |u| <= ARENA
      && LoadUnits(data, count, used, behind) == Cons(u, LoadUnits(rest, count - 1, used + |u|, behind))
  {
    hide Cons, Be16, Read16;
    u, rest := [], data;
    if Whole(data, used, behind) {
      var len := Read16(data[..2]);
      u, rest := data[2..2 + len], data[2 + len..];
      Parted(data, len);
    }
  }

  lemma {:induction false} Parted(data: bytes, len: nat)
    requires |data| >= 2 + len && len == Read16(data[..2])
    ensures data == Be16(len) + (data[2..2 + len] + data[2 + len..])
  {
    hide Be16, Read16;
    Be16Read(data[..2]);
    assert data == data[..2] + (data[2..2 + len] + data[2 + len..]);
  }

  lemma {:induction false} LoadEnds(data: bytes, count: nat, used: nat, behind: nat)
    requires count == 0 || |data| <= 2
    ensures LoadUnits(data, count, used, behind) == Some(Part([], data, used))
    ensures AllShort([]) && Units([]) + data == data && Size([]) == 0
  {
  }

  // The units loaded are there, behind their lengths, and nothing but the announced number of them is missing at the end.
  lemma {:induction false} UnitsThere(data: bytes, count: nat, used: nat, behind: nat)
    requires LoadUnits(data, count, used, behind).Some?
    ensures var p := LoadUnits(data, count, used, behind).value;
      && AllShort(p.units) && data == Units(p.units) + p.rest && p.used == used + Size(p.units)
      && |p.units| <= count && (|p.units| < count ==> |p.rest| <= 2)
      && (p.units != [] ==> p.used <= ARENA && |p.rest| >= behind)
    decreases count
  {
    hide LoadUnits, Units, Size, AllShort, Be16, Read16, Whole;
    if count == 0 || |data| <= 2 {
      LoadEnds(data, count, used, behind);
    } else {
      var u, rest := LoadNext(data, count, used, behind);
      UnitsThere(rest, count - 1, used + |u|, behind);
      var p := LoadUnits(rest, count - 1, used + |u|, behind).value;
      OneUnit(u, p.units, p.rest);
      if p.units == [] { LoadedNothing(rest, count - 1, used + |u|, behind); }
    }
  }

  lemma {:induction false} LoadedNothing(data: bytes, count: nat, used: nat, behind: nat)
    requires LoadUnits(data, count, used, behind).Some? && LoadUnits(data, count, used, behind).value.units == []
    ensures LoadUnits(data, count, used, behind) == Some(Part([], data, used))
  {
  }

  lemma {:induction false} Be16Read(b: bytes)
    requires |b| == 2
    ensures Be16(Read16(b)) == b
  {
  }

  lemma {:induction false} OneUnit(u: bytes, us: seq<bytes>, rest: bytes)
    requires |u| < 0x1_0000 && AllShort(us)
    ensures AllShort([u] + us) && Units([u] + us) + rest == Be16(|u|) + (u + (Units(us) + rest))
    ensures Size([u] + us) == |u| + Size(us)
  {
    hide Be16;
    assert ([u] + us)[1..] == us;
  }

  // Loading fails when the next unit is cut off, has too little behind it, or does not fit the arena.
  lemma {:induction false} UnitsFail(data: bytes, count: nat, used: nat, behind: nat) returns (us: seq<bytes>, rest: bytes)
    requires LoadUnits(data, count, used, behind) == None
    ensures AllShort(us) && data == Units(us) + rest && |us| < count
    ensures |rest| > 2 && !Whole(rest, used + Size(us), behind)
    decreases count
  {
    hide LoadUnits, Units, Size, AllShort, Be16, Read16, Whole;
    if count == 0 || |data| <= 2 { LoadEnds(data, count, used, behind); }
    LoadEnds(data, 0, used, behind);
    us, rest := [], data;
    if Whole(data, used, behind) {
      var u, more := LoadNext(data, count, used, behind);
      us, rest := UnitsFail(more, count - 1, used + |u|, behind);
      OneUnit(u, us, rest);
      us := [u] + us;
    }
  }

  // Whatever is loaded as a record is there: six bytes, of which the first does not matter, the sequence parameter
  // sets, one byte, and the picture parameter sets.
  lemma {:induction false} LoadedIsThere(data: bytes)
    requires Load(data).Some?
    ensures var l := Load(data).value;
      && |data| >= 7 && AllShort(l.sps) && AllShort(l.pps) && l.consumed <= |data|
      && data[..l.consumed] == data[..6] + Units(l.sps) + [l.ppsCount] + Units(l.pps)
      && l.profile == data[1] && l.compatibility == data[2] && l.level == data[3] && l.nalu == data[4] as nat % 4 + 1
      && l.spsCount == data[5] as nat % 0x20 && l.ppsCount < 256
      && |l.sps| <= l.spsCount && |l.pps| <= l.ppsCount && l.used == Size(l.sps) + Size(l.pps)
      && (|l.sps| < l.spsCount ==> l.pps == [] && |data| - l.consumed <= 1)
      && (|l.pps| < l.ppsCount ==> |data| - l.consumed <= 2)
  {
    hide LoadUnits, Units, AllShort, Size;
    var l, count := Load(data).value, data[5] as nat % 0x20;
    UnitsThere(data[6..], count, 0, 1);
    var s := LoadUnits(data[6..], count, 0, 1).value;
    UnitsThere(s.rest[1..], s.rest[0], s.used, 0);
    var p := LoadUnits(s.rest[1..], s.rest[0], s.used, 0).value;
    assert s.rest == [s.rest[0]] + s.rest[1..];
    Pieces(data, Units(s.units), s.rest[0], Units(p.units), p.rest);
    if |l.sps| < count { FewBytes(s.rest[1..], s.rest[0], s.used); }
  }

  lemma {:induction false} FewBytes(data: bytes, count: nat, used: nat)
    requires |data| <= 2
    ensures LoadUnits(data, count, used, 0) == Some(Part([], data, used))
  {
  }

  lemma {:induction false} Pieces(data: bytes, a: bytes, n: byte, b: bytes, rest: bytes)
    requires |data| >= 6 && data[6..] == a + ([n] + (b + rest))
    ensures |data| - |rest| >= 0 && data[..|data| - |rest|] == data[..6] + a + [n] + b
  {
    assert data == data[..6] + a + [n] + b + rest;
  }

  // When a record is refused.
  lemma {:induction false} RefusedIff(data: bytes)
    ensures Load(data) == None <==>
      || |data| < 7
      || var s := LoadUnits(data[6..], data[5] as nat % 0x20, 0, 1);
         s == None || s.value.rest == [] || LoadUnits(s.value.rest[1..], s.value.rest[0], s.value.used, 0) == None
  {
    hide LoadUnits;
  }

  // ---------------------------------------------------------------------------
  // An example

  // A record of one set of each kind, byte by byte.
  lemma {:induction false} OneOfEach(profile: byte, compatibility: byte, level: byte, sps: bytes, pps: bytes, room: nat)
    requires |sps| < 256 && |pps| < 256 && !HighProfile(profile) && room >= 11 + |sps| + |pps|
    ensures var r := Record(profile, compatibility, level, 4, [sps], [pps], 0, 0, 0);
      && Valid(r)
      && Saved(r, room) == Some(
           [1, profile, compatibility, level, 0xFF, 0xE1, 0, |sps|] + sps + [1, 0, |pps|] + pps)
  {
    hide HighProfile, Units, AllShort;
    var r := Record(profile, compatibility, level, 4, [sps], [pps], 0, 0, 0);
    OneSet(sps);
    OneSet(pps);
    assert Sets(r) == ([0, |sps|] + sps) + [1] + ([0, |pps|] + pps);
    assert Head(r) + Sets(r) + [] == [1, profile, compatibility, level, 0xFF, 0xE1, 0, |sps|] + sps + [1, 0, |pps|] + pps;
  }

  lemma {:induction false} OneSet(u: bytes)
    requires |u| < 256
    ensures AllShort([u]) && Units([u]) == [0, |u|] + u
  {
    assert [u][1..] == [] && Units([]) == [];
  }
}
