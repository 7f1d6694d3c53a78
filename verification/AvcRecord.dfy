/** The AVC decoder configuration record, saved and loaded back. */
module AvcRecord {
  import opened Bytes
  import opened Options

  const ARENA := 4096
  const MAX_SPS := 32

  // `nalu` is the size of the length prefixes.
  datatype Record = Record(
    profile: byte, compatibility: byte, level: byte, nalu: nat, sps: seq<bytes>, pps: seq<bytes>,
    chroma: nat, lumaDepth: nat, chromaDepth: nat)

  // What the fields' widths allow.
  predicate Valid(r: Record) {
    && 1 <= r.nalu <= 4 && |r.sps| <= MAX_SPS && |r.pps| < 256 && AllShort(r.sps) && AllShort(r.pps)
    && r.chroma < 4 && r.lumaDepth < 8 && r.chromaDepth < 8
  }

  predicate AllShort(us: seq<bytes>) { us == [] || (|us[0]| < 0x1_0000 && AllShort(us[1..])) }

  predicate HighProfile(profile: byte) {
    profile in {100, 110, 122, 244, 44, 83, 86, 118, 128, 138, 139, 134}
  }

  // Each unit behind its length.
  function Units(us: seq<bytes>): (b: bytes)
    requires AllShort(us)
  {
    if us == [] then [] else Be16(|us[0]|) + us[0] + Units(us[1..])
  }

  function Size(us: seq<bytes>): nat { if us == [] then 0 else |us[0]| + Size(us[1..]) }

  // The first six bytes; the count of SPS shares its byte with three reserved bits.
  function Head(r: Record): (b: bytes)
    requires Valid(r)
    ensures |b| == 6
  {
    [1, r.profile, r.compatibility, r.level, 0xFC + r.nalu - 1, 0xE0 + |r.sps| % 0x20]
  }

  function Extension(r: Record): bytes
    requires Valid(r)
  {
    [0xFC + r.chroma, 0xF8 + r.lumaDepth, 0xF8 + r.chromaDepth, 0]
  }

  function Sets(r: Record): bytes
    requires Valid(r)
  {
    Units(r.sps) + [|r.pps|] + Units(r.pps)
  }

  // There is room for the extension, and the profile has one.
  predicate Extended(r: Record, room: nat)
    requires Valid(r)
  {
    HighProfile(r.profile) && room >= 6 + |Sets(r)| + 4
  }

  // The record, or nothing when it does not fit.
  function Saved(r: Record, room: nat): Option<bytes>
    requires Valid(r)
  {
    if room < 6 + |Sets(r)| then None
    else Some(Head(r) + Sets(r) + if Extended(r, room) then Extension(r) else [])
  }

  // ---------------------------------------------------------------------------
  // Loading

  datatype Part = Part(units: seq<bytes>, rest: bytes, used: nat)

  function Cons(u: bytes, p: Option<Part>): Option<Part> {
    match p case None => None case Some(x) => Some(x.(units := [u] + x.units))
  }

  // Up to `count` units from the front; the loop ends early when no unit with content can follow. SPS have to leave a
  // byte behind them.
  function LoadUnits(data: bytes, count: nat, used: nat, behind: nat): (p: Option<Part>)
    ensures p.Some? ==> |p.value.rest| <= |data|
    decreases count
  {
    if count == 0 || |data| <= 2 then Some(Part([], data, used))
    else
      var len := Read16(data[..2]);
      if 2 + len + behind > |data| || used + len > ARENA then None
      else Cons(data[2..2 + len], LoadUnits(data[2 + len..], count - 1, used + len, behind))
  }

  // `spsCount` and `ppsCount` are what the record announces, the lists what was read.
  datatype Loaded = Loaded(
    profile: byte, compatibility: byte, level: byte, nalu: nat, spsCount: nat, sps: seq<bytes>, ppsCount: nat,
    pps: seq<bytes>, used: nat, consumed: nat)

  function Load(data: bytes): Option<Loaded> {
    if |data| < 7 then None
    else
      var spsCount := data[5] as nat % 0x20;
      match LoadUnits(data[6..], spsCount, 0, 1)
      case None => None
      case Some(s) =>
        if s.rest == [] then None
        else
          var ppsCount := s.rest[0];
          match LoadUnits(s.rest[1..], ppsCount, s.used, 0)
          case None => None
          case Some(p) =>
            Some(Loaded(data[1], data[2], data[3], data[4] as nat % 4 + 1, spsCount, s.units, ppsCount, p.units, p.used,
              |data| - |p.rest|))
  }

  // ---------------------------------------------------------------------------
  // Saving and loading

  // One turn of the loop over a unit that was written.
  lemma {:induction false} LoadStep(u: bytes, rest: bytes, count: nat, used: nat, behind: nat)
    requires |u| < 0x1_0000 && count > 0 && |u| + |rest| > 0 && behind <= |rest|
    ensures LoadUnits(Be16(|u|) + (u + rest), count, used, behind)
         == if used + |u| > ARENA then None else Cons(u, LoadUnits(rest, count - 1, used + |u|, behind))
  {
    Be16RoundTrip(|u|);
    hide Be16, Read16;
    var data := Be16(|u|) + (u + rest);
    assert data[..2] == Be16(|u|) && data[2..2 + |u|] == u && data[2 + |u|..] == rest;
  }

  lemma {:induction false} UnitsCons(us: seq<bytes>, rest: bytes)
    requires AllShort(us) && us != []
    ensures |us[0]| < 0x1_0000 && AllShort(us[1..])
    ensures Units(us) + rest == Be16(|us[0]|) + (us[0] + (Units(us[1..]) + rest)) && Size(us) == |us[0]| + Size(us[1..])
    ensures if |us| == 1 then Units(us[1..]) == [] && Size(us[1..]) == 0 else |Units(us[1..])| >= 2
  {
    hide Be16;
  }

  lemma {:induction false} NoUnits(rest: bytes, used: nat, behind: nat)
    ensures LoadUnits(Units([]) + rest, 0, used, behind) == Some(Part([], rest, used)) && Size([]) == 0
  {
    assert [] + rest == rest;
  }

  // Reading units back from where they were written, with enough behind them for the loop not to end early.
  lemma {:induction false} UnitsLoad(us: seq<bytes>, rest: bytes, used: nat, behind: nat)
    requires AllShort(us) && behind <= 1 && |rest| >= behind
    requires us == [] || rest != [] || us[|us| - 1] != []
    ensures LoadUnits(Units(us) + rest, |us|, used, behind)
         == if us == [] || used + Size(us) <= ARENA then Some(Part(us, rest, used + Size(us))) else None
    decreases |us|
  {
    hide LoadUnits, Units, Size, Be16, AllShort;
    if us == [] {
      NoUnits(rest, used, behind);
    } else {
      UnitsCons(us, rest);
      LoadStep(us[0], Units(us[1..]) + rest, |us|, used, behind);
      if used + |us[0]| <= ARENA { UnitsLoad(us[1..], rest, used + |us[0]|, behind); }
      assert [us[0]] + us[1..] == us;
    }
  }

  lemma {:induction false} TooShort(data: bytes, count: nat, used: nat)
    requires |data| <= 2
    ensures LoadUnits(data, count, used, 0) == Some(Part([], data, used))
  {
  }

  // An empty unit at the very end is not read.
  lemma {:induction false} TrailingEmpty(us: seq<bytes>, used: nat)
    requires AllShort(us) && us != [] && us[|us| - 1] == []
    ensures var p := LoadUnits(Units(us), |us|, used, 0); p.Some? ==> |p.value.units| < |us|
    decreases |us|
  {
    hide LoadUnits, Units, Size, Be16, AllShort;
    UnitsCons(us, []);
    assert Units(us) + [] == Units(us) && Units(us[1..]) + [] == Units(us[1..]);
    if |us| == 1 {
      TooShort(Units(us), 1, used);
    } else {
      LoadStep(us[0], Units(us[1..]), |us|, used, 0);
      if used + |us[0]| <= ARENA { TrailingEmpty(us[1..], used + |us[0]|); }
    }
  }

  predicate SameAs(l: Loaded, r: Record) {
    && l.profile == r.profile && l.compatibility == r.compatibility && l.level == r.level && l.nalu == r.nalu
    && l.spsCount == |r.sps| && l.sps == r.sps && l.ppsCount == |r.pps| && l.pps == r.pps
  }

  // The last PPS is read if it has content or the extension follows.
  predicate LastRead(r: Record, room: nat)
    requires Valid(r)
  {
    r.pps == [] || r.pps[|r.pps| - 1] != [] || Extended(r, room)
  }

  predicate Loadable(r: Record, room: nat)
    requires Valid(r)
  {
    |r.sps| < MAX_SPS && Size(r.sps) + Size(r.pps) <= ARENA && LastRead(r, room)
  }

  // What follows the SPS in a saved record.
  function Tail(r: Record, room: nat): bytes
    requires Valid(r)
  {
    [|r.pps|] + Units(r.pps) + if Extended(r, room) then Extension(r) else []
  }

  lemma {:induction false} SavedShape(r: Record, room: nat)
    requires Valid(r) && Saved(r, room).Some?
    ensures Saved(r, room).value == Head(r) + Units(r.sps) + Tail(r, room)
  {
    hide Units, Extended;
  }

  lemma {:induction false} HeadRead(r: Record, rest: bytes)
    requires Valid(r)
    ensures var d := Head(r) + rest;
      d[1] == r.profile && d[2] == r.compatibility && d[3] == r.level && d[4] as nat % 4 + 1 == r.nalu
      && d[5] as nat % 0x20 == |r.sps| % 0x20
  {
    var n := r.nalu - 1;
    assert (0xFC + n) % 4 == n;
    assert (0xE0 + |r.sps| % 0x20) % 0x20 == |r.sps| % 0x20;
  }

  // The PPS part, after all SPS were read.
  lemma {:induction false} PpsLoad(r: Record, room: nat, used: nat)
    requires Valid(r)
    ensures
      var p := LoadUnits(Tail(r, room)[1..], |r.pps|, used, 0);
      (p.Some? && p.value.units == r.pps) <==> (r.pps == [] || used + Size(r.pps) <= ARENA) && LastRead(r, room)
  {
    hide Units, Extended, LoadUnits;
    var ext := if Extended(r, room) then Extension(r) else [];
    assert Tail(r, room)[1..] == Units(r.pps) + ext;
    if LastRead(r, room) {
      UnitsLoad(r.pps, ext, used, 0);
    } else {
      assert Units(r.pps) + ext == Units(r.pps);
      TrailingEmpty(r.pps, used);
    }
  }

  // A saved record is loaded back, all fields and all sets, exactly when it has fewer than 32 SPS, its sets fit the
  // arena, and it does not end with an empty PPS.
  lemma {:induction false} RoundTrip(r: Record, room: nat)
    requires Valid(r) && Saved(r, room).Some?
    ensures var l := Load(Saved(r, room).value);
      (l.Some? && SameAs(l.value, r)) <==> Loadable(r, room)
  {
    hide Units, Extended, LoadUnits, Head, Size, Saved;
    var tail := Tail(r, room);
    SavedShape(r, room);
    var data := Saved(r, room).value;
    assert data == Head(r) + (Units(r.sps) + tail) && data[6..] == Units(r.sps) + tail;
    HeadRead(r, Units(r.sps) + tail);
    if |r.sps| < MAX_SPS {
      UnitsLoad(r.sps, tail, 0, 1);
      SizeNone();
      PpsLoad(r, room, Size(r.sps));
    }
  }

  lemma {:induction false} SizeNone()
    ensures Size([]) == 0
  {
  }

  // A record as it can be loaded: one SPS and one PPS, which is empty, with a byte behind it.
  function SomeSps(): bytes { [0x67, 66, 0, 30, 0x80] }

  function LoadedHead(): bytes { [1, 66, 0, 30, 0xFF, 0xE1] }

  function LoadedTail(): bytes { Be16(0) + ([] + [9]) }

  function LoadedData(): bytes { LoadedHead() + (Be16(5) + (SomeSps() + ([1] + LoadedTail()))) }

  lemma {:induction false} LoadedParts()
    ensures LoadUnits(Be16(5) + (SomeSps() + ([1] + LoadedTail())), 1, 0, 1) == Some(Part([SomeSps()], [1] + LoadedTail(), 5))
    ensures LoadUnits(LoadedTail(), 1, 5, 0) == Some(Part([[]], [9], 5))
  {
    LoadStep(SomeSps(), [1] + LoadedTail(), 1, 0, 1);
    LoadStep([], [9], 1, 5, 0);
    NoneLeft([1] + LoadedTail(), 5, 1);
    NoneLeft([9], 5, 0);
    hide LoadUnits, Be16;
    var empty: seq<bytes> := [[]];
    assert [SomeSps()] + [] == [SomeSps()] && empty + [] == empty;
  }

  lemma {:induction false} NoneLeft(rest: bytes, used: nat, behind: nat)
    ensures LoadUnits(rest, 0, used, behind) == Some(Part([], rest, used))
  {
  }

  lemma {:induction false} LoadedRecord()
    ensures Load(LoadedData()) == Some(Loaded(66, 0, 30, 4, 1, [SomeSps()], 1, [[]], 5, |LoadedData()| - 1))
  {
    LoadedParts();
    hide LoadUnits, Be16, LoadedTail, SomeSps;
    var d, rest := LoadedData(), [1] + LoadedTail();
    assert d[6..] == Be16(5) + (SomeSps() + rest) && rest[1..] == LoadedTail();
    assert d[1] == 66 && d[2] == 0 && d[3] == 30 && d[4] == 0xFF && d[5] == 0xE1;
  }

  // What a load left of it is saved, and the empty PPS does not come back.
  lemma {:induction false} NotLoadedBack()
    ensures
      var l, r := Load(LoadedData()), Record(66, 0, 30, 4, [SomeSps()], [[]], 0, 0, 0);
      && l.Some? && SameAs(l.value, r) && Valid(r)
      && var data := Saved(r, 6 + |Sets(r)|);
         data.Some? && (Load(data.value).None? || !SameAs(Load(data.value).value, r))
  {
    var r := Record(66, 0, 30, 4, [SomeSps()], [[]], 0, 0, 0);
    LoadedRecord();
    OneShort(SomeSps());
    OneShort([]);
    hide Units, Load, AllShort, LoadedData, SomeSps;
    assert Valid(r);
    RoundTrip(r, 6 + |Sets(r)|);
    hide Sets;
  }

  lemma {:induction false} OneShort(u: bytes)
    requires |u| < 0x1_0000
    ensures AllShort([u])
  {
    assert [u][1..] == [];
  }
}
