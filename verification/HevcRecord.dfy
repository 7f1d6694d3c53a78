/** The HEVC decoder configuration record, grouped, saved and loaded back. */
module HevcRecord {
  import opened Bytes
  import opened AvcRecord
  import opened Options

  const VPS := 32
  const SPS := 33
  const PPS := 34
  const PREFIX_SEI := 39
  const SUFFIX_SEI := 40
  const KINDS: seq<nat> := [VPS, SPS, PPS, PREFIX_SEI, SUFFIX_SEI]
  const MAX_UNITS := 64
  const HEAD_SIZE := 23
  const POW48 := 0x1_0000_0000_0000

  datatype Fields = Fields(
    space: nat, tier: nat, profile: nat, compatibility: nat, constraints: nat, level: nat, segmentation: nat,
    parallelism: nat, chroma: nat, lumaDepth: nat, chromaDepth: nat, frameRate: nat, constantRate: nat, layers: nat,
    nested: nat, lengthSize: nat)

  predicate InRange(f: Fields) {
    && f.space < 4 && f.tier < 2 && f.profile < 32 && f.compatibility < POW32 && f.constraints < POW48 && f.level < 256
    && f.segmentation < 0x1000 && f.parallelism < 4 && f.chroma < 4 && f.lumaDepth < 8 && f.chromaDepth < 8
    && f.frameRate < 0x1_0000 && f.constantRate < 4 && f.layers < 8 && f.nested < 2 && f.lengthSize < 4
  }

  // The fixed part, with the number of arrays at its end.
  function FieldBytes(f: Fields, arrays: byte): (b: bytes)
    requires InRange(f)
    ensures |b| == HEAD_SIZE
  {
    [1, f.space * 64 + f.tier * 32 + f.profile] + Be32(f.compatibility)
    + Be32(f.constraints / 0x1_0000) + Be16(f.constraints % 0x1_0000) + [f.level] + Be16(0xF000 + f.segmentation)
    + [0xFC + f.parallelism, 0xFC + f.chroma, 0xF8 + f.lumaDepth, 0xF8 + f.chromaDepth] + Be16(f.frameRate)
    + [f.constantRate * 64 + f.layers * 8 + f.nested * 4 + f.lengthSize, arrays]
  }

  function ReadFields(d: bytes): (f: Fields)
    requires |d| == HEAD_SIZE
    ensures InRange(f)
  {
    Fields(d[1] as nat / 64, d[1] as nat / 32 % 2, d[1] as nat % 32, Read32(d[2..6]),
      Read32(d[6..10]) * 0x1_0000 + Read16(d[10..12]), d[12], Read16(d[13..15]) % 0x1000,
      d[15] as nat % 4, d[16] as nat % 4, d[17] as nat % 8, d[18] as nat % 8, Read16(d[19..21]),
      d[21] as nat / 64, d[21] as nat / 8 % 8, d[21] as nat / 4 % 2, d[21] as nat % 4)
  }

  lemma {:induction false} FieldPlaces(f: Fields, arrays: byte)
    requires InRange(f)
    ensures var d := FieldBytes(f, arrays);
      && d[0] == 1 && d[1] as nat == f.space * 64 + f.tier * 32 + f.profile && d[2..6] == Be32(f.compatibility)
      && d[6..10] == Be32(f.constraints / 0x1_0000) && d[10..12] == Be16(f.constraints % 0x1_0000) && d[12] as nat == f.level
      && d[13..15] == Be16(0xF000 + f.segmentation) && d[15] as nat == 0xFC + f.parallelism && d[16] as nat == 0xFC + f.chroma
      && d[17] as nat == 0xF8 + f.lumaDepth && d[18] as nat == 0xF8 + f.chromaDepth && d[19..21] == Be16(f.frameRate)
      && d[21] as nat == f.constantRate * 64 + f.layers * 8 + f.nested * 4 + f.lengthSize && d[22] == arrays
  {
    hide Be16, Be32;
  }

  lemma {:induction false} FieldsReadBack(f: Fields, arrays: byte)
    requires InRange(f)
    ensures ReadFields(FieldBytes(f, arrays)) == f && FieldBytes(f, arrays)[0] == 1 && FieldBytes(f, arrays)[22] == arrays
  {
    hide Be16, Be32, Read16, Read32, FieldBytes;
    FieldPlaces(f, arrays);
    Be32RoundTrip(f.compatibility);
    Be32RoundTrip(f.constraints / 0x1_0000);
    Be16RoundTrip(f.constraints % 0x1_0000);
    Be16RoundTrip(0xF000 + f.segmentation);
    Be16RoundTrip(f.frameRate);
    PackedBits(f);
  }

  lemma {:induction false} PackedBits(f: Fields)
    requires InRange(f)
    ensures var a := f.space * 64 + f.tier * 32 + f.profile; a / 64 == f.space && a / 32 % 2 == f.tier && a % 32 == f.profile
    ensures var b := f.constantRate * 64 + f.layers * 8 + f.nested * 4 + f.lengthSize;
            b / 64 == f.constantRate && b / 8 % 8 == f.layers && b / 4 % 2 == f.nested && b % 4 == f.lengthSize
  {
    assert (f.space * 64 + f.tier * 32 + f.profile) / 32 == f.space * 2 + f.tier;
    var b := f.constantRate * 64 + f.layers * 8 + f.nested * 4 + f.lengthSize;
    assert b / 8 == f.constantRate * 8 + f.layers && b / 4 == f.constantRate * 16 + f.layers * 2 + f.nested;
  }

  // ---------------------------------------------------------------------------
  // Units

  datatype Unit = Unit(kind: nat, complete: nat, data: bytes)

  predicate AllUnits(us: seq<Unit>) {
    us == [] || (us[0].kind < 64 && us[0].complete < 2 && |us[0].data| < 0x1_0000 && AllUnits(us[1..]))
  }

  // The units of one type, in order.
  function DataOf(us: seq<Unit>, kind: nat): seq<bytes> {
    if us == [] then [] else (if us[0].kind == kind then [us[0].data] else []) + DataOf(us[1..], kind)
  }

  // The completeness of an array is that of the last unit of its type.
  function CompleteOf(us: seq<Unit>, kind: nat): nat {
    if us == [] then 0
    else if us[0].kind == kind && DataOf(us[1..], kind) == [] then us[0].complete
    else CompleteOf(us[1..], kind)
  }

  function As(kind: nat, complete: nat, datas: seq<bytes>): seq<Unit> {
    if datas == [] then [] else [Unit(kind, complete, datas[0])] + As(kind, complete, datas[1..])
  }

  // All units of the known types, grouped.
  function Grouped(us: seq<Unit>, kinds: seq<nat>): seq<Unit> {
    if kinds == [] then [] else As(kinds[0], CompleteOf(us, kinds[0]), DataOf(us, kinds[0])) + Grouped(us, kinds[1..])
  }

  function UnitsTotal(us: seq<Unit>): nat { if us == [] then 0 else |us[0].data| + UnitsTotal(us[1..]) }

  lemma {:induction false} DataOfShort(us: seq<Unit>, kind: nat)
    requires AllUnits(us)
    ensures AllShort(DataOf(us, kind)) && CompleteOf(us, kind) < 2 && |DataOf(us, kind)| <= |us|
    decreases |us|
  {
    if us != [] {
      DataOfShort(us[1..], kind);
      var rest := DataOf(us[1..], kind);
      if us[0].kind == kind { assert ([us[0].data] + rest)[1..] == rest; } else { assert [] + rest == rest; }
    }
  }

  // One array: type and completeness, the number of units, and the units behind their lengths.
  function ArrayBytes(kind: nat, complete: nat, datas: seq<bytes>): bytes
    requires kind < 64 && complete < 2 && AllShort(datas) && |datas| < 0x1_0000
  {
    if datas == [] then [] else [complete * 128 + kind] + Be16(|datas|) + Units(datas)
  }

  predicate AllKinds(kinds: seq<nat>) { forall i :: 0 <= i < |kinds| ==> kinds[i] < 64 }

  function Arrays(us: seq<Unit>, kinds: seq<nat>): bytes
    requires AllUnits(us) && |us| <= MAX_UNITS && AllKinds(kinds)
  {
    if kinds == [] then []
    else
      DataOfShort(us, kinds[0]);
      ArrayBytes(kinds[0], CompleteOf(us, kinds[0]), DataOf(us, kinds[0])) + Arrays(us, kinds[1..])
  }

  function ArrayCount(us: seq<Unit>, kinds: seq<nat>): (n: nat)
    ensures n <= |kinds|
  {
    if kinds == [] then 0 else (if DataOf(us, kinds[0]) == [] then 0 else 1) + ArrayCount(us, kinds[1..])
  }

  // The record, or nothing when it does not fit.
  function SavedUnits(f: Fields, us: seq<Unit>, room: nat): Option<bytes>
    requires InRange(f) && AllUnits(us) && |us| <= MAX_UNITS
  {
    if room < HEAD_SIZE + |Arrays(us, KINDS)| then None
    else Some(FieldBytes(f, ArrayCount(us, KINDS)) + Arrays(us, KINDS))
  }

  // ---------------------------------------------------------------------------
  // Loading

  datatype Got = Got(units: seq<Unit>, rest: bytes, used: nat)

  function Before(us: seq<Unit>, g: Option<Got>): Option<Got> {
    match g case None => None case Some(x) => Some(x.(units := us + x.units))
  }

  // `n` units of one array; `count` units were loaded before.
  function LoadArray(data: bytes, head: byte, n: nat, count: nat, used: nat): (g: Option<Got>)
    ensures g.Some? ==> |g.value.rest| <= |data|
    decreases n
  {
    if n == 0 then Some(Got([], data, used))
    else if count >= MAX_UNITS || |data| < 2 then None
    else
      var k := Read16(data[..2]);
      if 2 + k > |data| || used + k > ARENA then None
      else Before([Unit(head as nat % 64, head as nat / 128, data[2..2 + k])], LoadArray(data[2 + k..], head, n - 1, count + 1, used + k))
  }

  function LoadArrays(data: bytes, arrays: nat, count: nat, used: nat): (g: Option<Got>)
    ensures g.Some? ==> |g.value.rest| <= |data|
    decreases arrays
  {
    if arrays == 0 then Some(Got([], data, used))
    else if |data| < 3 then None
    else
      var n := Read16(data[1..3]);
      match LoadArray(data[3..], data[0], n, count, used)
      case None => None
      case Some(g) => Before(g.units, LoadArrays(g.rest, arrays - 1, count + n, g.used))
  }

  datatype LoadedUnits = LoadedUnits(fields: Fields, units: seq<Unit>, used: nat, consumed: nat)

  function LoadAll(data: bytes): Option<LoadedUnits> {
    if |data| < HEAD_SIZE || data[0] != 1 then None
    else
      match LoadArrays(data[HEAD_SIZE..], data[22], 0, 0)
      case None => None
      case Some(g) => Some(LoadedUnits(ReadFields(data[..HEAD_SIZE]), g.units, g.used, |data| - |g.rest|))
  }

  // ---------------------------------------------------------------------------
  // Saving and loading

  lemma {:induction false} AsCons(kind: nat, complete: nat, datas: seq<bytes>)
    requires datas != []
    ensures As(kind, complete, datas) == [Unit(kind, complete, datas[0])] + As(kind, complete, datas[1..])
    ensures |As(kind, complete, datas)| == |As(kind, complete, datas[1..])| + 1
  {
  }

  // Room for so many units and bytes.
  predicate Holds(n: nat, count: nat, size: nat, used: nat) { n == 0 || (count + n <= MAX_UNITS && used + size <= ARENA) }

  lemma {:induction false} UnitLoad(head: byte, n: nat, u: bytes, rest: bytes, count: nat, used: nat)
    requires n > 0 && |u| < 0x1_0000
    ensures LoadArray(Be16(|u|) + (u + rest), head, n, count, used)
         == if count >= MAX_UNITS || used + |u| > ARENA then None
            else Before([Unit(head as nat % 64, head as nat / 128, u)], LoadArray(rest, head, n - 1, count + 1, used + |u|))
  {
    Be16RoundTrip(|u|);
    hide Be16, Read16, Before;
    var data := Be16(|u|) + (u + rest);
    assert data[..2] == Be16(|u|) && data[2..2 + |u|] == u && data[2 + |u|..] == rest;
  }

  lemma {:induction false} NoLoad(kind: nat, complete: nat, head: byte, rest: bytes, count: nat, used: nat)
    ensures LoadArray(Units([]) + rest, head, 0, count, used) == Some(Got(As(kind, complete, []), rest, used)) && Size([]) == 0
  {
    assert [] + rest == rest;
  }

  lemma {:induction false} ArrayLoads(kind: nat, complete: nat, datas: seq<bytes>, rest: bytes, count: nat, used: nat)
    requires kind < 64 && complete < 2 && AllShort(datas)
    ensures LoadArray(Units(datas) + rest, complete * 128 + kind, |datas|, count, used)
         == if Holds(|datas|, count, Size(datas), used) then Some(Got(As(kind, complete, datas), rest, used + Size(datas))) else None
    decreases |datas|
  {
    hide LoadArray, Units, Size, Be16, AllShort, As;
    var head: byte := complete * 128 + kind;
    assert head as nat % 64 == kind && head as nat / 128 == complete;
    if datas == [] {
      NoLoad(kind, complete, head, rest, count, used);
    } else {
      UnitsCons(datas, rest);
      AsCons(kind, complete, datas);
      UnitLoad(head, |datas|, datas[0], Units(datas[1..]) + rest, count, used);
      if count < MAX_UNITS && used + |datas[0]| <= ARENA {
        ArrayLoads(kind, complete, datas[1..], rest, count + 1, used + |datas[0]|);
      }
    }
  }

  lemma {:induction false} ArraysStep(head: byte, n: nat, units: bytes, arrays: nat, count: nat, used: nat)
    requires n < 0x1_0000 && arrays > 0
    ensures LoadArrays([head] + Be16(n) + units, arrays, count, used)
         == match LoadArray(units, head, n, count, used)
            case None => None
            case Some(g) => Before(g.units, LoadArrays(g.rest, arrays - 1, count + n, g.used))
  {
    hide LoadArray, Before, Be16, Read16;
    Be16RoundTrip(n);
    var data := [head] + Be16(n) + units;
    assert data[1..3] == Be16(n) && data[3..] == units;
  }

  lemma {:induction false} AsTotal(kind: nat, complete: nat, datas: seq<bytes>)
    ensures |As(kind, complete, datas)| == |datas| && UnitsTotal(As(kind, complete, datas)) == Size(datas)
    decreases |datas|
  {
    if datas != [] {
      AsTotal(kind, complete, datas[1..]);
      assert As(kind, complete, datas)[1..] == As(kind, complete, datas[1..]);
    }
  }

  lemma {:induction false} TotalConcat(a: seq<Unit>, b: seq<Unit>)
    ensures UnitsTotal(a + b) == UnitsTotal(a) + UnitsTotal(b)
    decreases |a|
  {
    if a == [] {
      assert a + b == b;
    } else {
      assert (a + b)[1..] == a[1..] + b;
      TotalConcat(a[1..], b);
    }
  }

  lemma {:induction false} NoArrays(us: seq<Unit>, rest: bytes, count: nat, used: nat)
    requires AllUnits(us) && |us| <= MAX_UNITS
    ensures LoadArrays(Arrays(us, []) + rest, ArrayCount(us, []), count, used) == Some(Got([], rest, used))
    ensures Grouped(us, []) == [] && UnitsTotal([]) == 0
  {
    assert [] + rest == rest;
  }

  lemma {:induction false} FirstArray(us: seq<Unit>, kinds: seq<nat>, rest: bytes)
    requires AllUnits(us) && |us| <= MAX_UNITS && AllKinds(kinds) && kinds != []
    ensures var (k, more) := (kinds[0], kinds[1..]);
      var (c, ds) := (CompleteOf(us, k), DataOf(us, k));
      && k < 64 && AllKinds(more) && c < 2 && AllShort(ds) && |ds| <= MAX_UNITS
      && Grouped(us, kinds) == As(k, c, ds) + Grouped(us, more)
      && ArrayCount(us, kinds) == (if ds == [] then 0 else 1) + ArrayCount(us, more)
      && Arrays(us, kinds) + rest == (if ds == [] then Arrays(us, more) + rest
           else [c * 128 + k] + Be16(|ds|) + (Units(ds) + (Arrays(us, more) + rest)))
      && (ds == [] ==> As(k, c, ds) == [] && Grouped(us, kinds) == Grouped(us, more))
  {
    DataOfShort(us, kinds[0]);
    AsNone(kinds[0], CompleteOf(us, kinds[0]));
    ArraysCons(us, kinds);
    hide Units, Be16, AllShort, DataOf, CompleteOf, AllUnits, As, Arrays;
    var ds, more := DataOf(us, kinds[0]), Arrays(us, kinds[1..]);
    var head := [CompleteOf(us, kinds[0]) * 128 + kinds[0]];
    if ds == [] {
      assert [] + more == more && [] + Grouped(us, kinds[1..]) == Grouped(us, kinds[1..]);
    } else {
      Regroup(head + Be16(|ds|), Units(ds), more + rest);
      Regroup(head + Be16(|ds|) + Units(ds), more, rest);
    }
  }

  lemma {:induction false} ArraysCons(us: seq<Unit>, kinds: seq<nat>)
    requires AllUnits(us) && |us| <= MAX_UNITS && AllKinds(kinds) && kinds != []
    ensures AllKinds(kinds[1..]) && kinds[0] < 64 && CompleteOf(us, kinds[0]) < 2
    ensures AllShort(DataOf(us, kinds[0])) && |DataOf(us, kinds[0])| <= MAX_UNITS
    ensures Arrays(us, kinds) == ArrayBytes(kinds[0], CompleteOf(us, kinds[0]), DataOf(us, kinds[0])) + Arrays(us, kinds[1..])
  {
    DataOfShort(us, kinds[0]);
    hide ArrayBytes, AllShort, DataOf, CompleteOf, AllUnits;
  }

  lemma {:induction false} AsNone(kind: nat, complete: nat)
    ensures As(kind, complete, []) == []
  {
  }

  // All arrays of a record are loaded back, grouped, exactly when they fit.
  lemma {:induction false} ArraysLoad(us: seq<Unit>, kinds: seq<nat>, rest: bytes, count: nat, used: nat)
    requires AllUnits(us) && |us| <= MAX_UNITS && AllKinds(kinds)
    ensures var g := Grouped(us, kinds);
      LoadArrays(Arrays(us, kinds) + rest, ArrayCount(us, kinds), count, used)
        == if Holds(|g|, count, UnitsTotal(g), used) then Some(Got(g, rest, used + UnitsTotal(g))) else None
    decreases |kinds|
  {
    hide LoadArrays, LoadArray, Arrays, ArrayCount, Grouped, As, DataOf, CompleteOf, Units, Size, UnitsTotal, AllUnits,
      AllShort, AllKinds, Be16;
    if kinds == [] {
      NoArrays(us, rest, count, used);
    } else {
      var k, more := kinds[0], kinds[1..];
      var c, ds := CompleteOf(us, k), DataOf(us, k);
      FirstArray(us, kinds, rest);
      var tail := Arrays(us, more) + rest;
      AsTotal(k, c, ds);
      TotalConcat(As(k, c, ds), Grouped(us, more));
      if ds == [] {
        ArraysLoad(us, more, rest, count, used);
      } else {
        ArraysStep(c * 128 + k, |ds|, Units(ds) + tail, ArrayCount(us, kinds), count, used);
        ArrayLoads(k, c, ds, tail, count, used);
        NothingMore(Grouped(us, more));
        if Holds(|ds|, count, Size(ds), used) { ArraysLoad(us, more, rest, count + |ds|, used + Size(ds)); }
      }
    }
  }

  lemma {:induction false} NothingMore(us: seq<Unit>)
    ensures us == [] ==> UnitsTotal(us) == 0
  {
  }

  // ---------------------------------------------------------------------------
  // Grouping

  predicate Distinct(kinds: seq<nat>) { kinds == [] || (kinds[0] !in kinds[1..] && Distinct(kinds[1..])) }

  lemma {:induction false} GroupedAdds(u: Unit, us: seq<Unit>, kinds: seq<nat>)
    requires Distinct(kinds)
    ensures var n := if u.kind in kinds then 1 else 0;
      && |Grouped([u] + us, kinds)| == |Grouped(us, kinds)| + n
      && UnitsTotal(Grouped([u] + us, kinds)) == UnitsTotal(Grouped(us, kinds)) + n * |u.data|
    decreases |kinds|
  {
    hide UnitsTotal, As, Size, CompleteOf;
    if kinds != [] {
      var k, all := kinds[0], [u] + us;
      GroupedAdds(u, us, kinds[1..]);
      assert all[1..] == us;
      AsTotal(k, CompleteOf(all, k), DataOf(all, k));
      AsTotal(k, CompleteOf(us, k), DataOf(us, k));
      TotalConcat(As(k, CompleteOf(all, k), DataOf(all, k)), Grouped(all, kinds[1..]));
      TotalConcat(As(k, CompleteOf(us, k), DataOf(us, k)), Grouped(us, kinds[1..]));
      SizeCons(u.data, DataOf(us, k));
      assert [] + DataOf(us, k) == DataOf(us, k);
    }
  }

  lemma {:induction false} SizeCons(u: bytes, us: seq<bytes>)
    ensures Size([u] + us) == |u| + Size(us)
  {
    assert ([u] + us)[1..] == us;
  }

  // Grouping keeps no more than what was there.
  lemma {:induction false} GroupedSmaller(us: seq<Unit>, kinds: seq<nat>)
    requires Distinct(kinds)
    ensures |Grouped(us, kinds)| <= |us| && UnitsTotal(Grouped(us, kinds)) <= UnitsTotal(us)
    decreases |us|
  {
    hide Grouped;
    if us == [] {
      GroupedNone(kinds);
    } else {
      GroupedSmaller(us[1..], kinds);
      GroupedAdds(us[0], us[1..], kinds);
      assert [us[0]] + us[1..] == us;
    }
  }

  lemma {:induction false} GroupedNone(kinds: seq<nat>)
    ensures Grouped([], kinds) == []
    decreases |kinds|
  {
    if kinds != [] { GroupedNone(kinds[1..]); }
  }

  lemma {:induction false} DataConcat(a: seq<Unit>, b: seq<Unit>, kind: nat)
    ensures DataOf(a + b, kind) == DataOf(a, kind) + DataOf(b, kind)
    ensures CompleteOf(a + b, kind) == if DataOf(b, kind) == [] then CompleteOf(a, kind) else CompleteOf(b, kind)
    decreases |a|
  {
    if a == [] {
      assert a + b == b;
      if DataOf(b, kind) == [] { CompleteNone(b, kind); }
    } else {
      assert (a + b)[1..] == a[1..] + b;
      DataConcat(a[1..], b, kind);
    }
  }

  lemma {:induction false} CompleteNone(us: seq<Unit>, kind: nat)
    requires DataOf(us, kind) == []
    ensures CompleteOf(us, kind) == 0
    decreases |us|
  {
    if us != [] { CompleteNone(us[1..], kind); }
  }

  lemma {:induction false} DataAs(kind: nat, complete: nat, datas: seq<bytes>, k: nat)
    ensures DataOf(As(kind, complete, datas), k) == if k == kind then datas else []
    ensures k == kind && datas != [] ==> CompleteOf(As(kind, complete, datas), k) == complete
    decreases |datas|
  {
    if datas != [] {
      DataAs(kind, complete, datas[1..], k);
      assert As(kind, complete, datas)[1..] == As(kind, complete, datas[1..]);
      assert [datas[0]] + datas[1..] == datas;
    }
  }

  // Grouping is stable: every known type keeps its units, in order, and its completeness.
  lemma {:induction false} GroupedStable(us: seq<Unit>, kinds: seq<nat>, k: nat)
    requires Distinct(kinds)
    ensures DataOf(Grouped(us, kinds), k) == if k in kinds then DataOf(us, k) else []
    ensures k in kinds ==> CompleteOf(Grouped(us, kinds), k) == CompleteOf(us, k)
    decreases |kinds|
  {
    hide As, DataOf, CompleteOf;
    if kinds == [] {
      EmptyData(k);
    } else {
      var a, c, ds := kinds[0], CompleteOf(us, kinds[0]), DataOf(us, kinds[0]);
      GroupedStable(us, kinds[1..], k);
      DataConcat(As(a, c, ds), Grouped(us, kinds[1..]), k);
      DataAs(a, c, ds, k);
      if DataOf(us, k) == [] { CompleteNone(us, k); }
      if DataOf(As(a, c, ds), k) == [] { CompleteNone(As(a, c, ds), k); }
    }
  }

  lemma {:induction false} EmptyData(k: nat)
    ensures DataOf([], k) == []
  {
  }

  lemma {:induction false} AsValid(kind: nat, complete: nat, datas: seq<bytes>, more: seq<Unit>)
    requires kind < 64 && complete < 2 && AllShort(datas) && AllUnits(more)
    ensures AllUnits(As(kind, complete, datas) + more)
    decreases |datas|
  {
    if datas == [] {
      assert [] + more == more;
    } else {
      AsCons(kind, complete, datas);
      hide As;
      AsValid(kind, complete, datas[1..], more);
      assert (As(kind, complete, datas) + more)[1..] == As(kind, complete, datas[1..]) + more;
      assert (As(kind, complete, datas) + more)[0] == Unit(kind, complete, datas[0]);
    }
  }

  lemma {:induction false} GroupedValid(us: seq<Unit>, kinds: seq<nat>)
    requires AllUnits(us) && AllKinds(kinds)
    ensures AllUnits(Grouped(us, kinds))
    decreases |kinds|
  {
    hide As, DataOf, CompleteOf, AllUnits, AllShort;
    if kinds == [] {
      NoneValid();
    } else {
      GroupedValid(us, kinds[1..]);
      DataOfShort(us, kinds[0]);
      AsValid(kinds[0], CompleteOf(us, kinds[0]), DataOf(us, kinds[0]), Grouped(us, kinds[1..]));
    }
  }

  lemma {:induction false} NoneValid()
    ensures AllUnits([])
  {
  }

  lemma {:induction false} ArraysSame(a: seq<Unit>, b: seq<Unit>, kinds: seq<nat>)
    requires AllUnits(a) && AllUnits(b) && |a| <= MAX_UNITS && |b| <= MAX_UNITS && AllKinds(kinds)
    requires forall k :: k in kinds ==> DataOf(a, k) == DataOf(b, k) && CompleteOf(a, k) == CompleteOf(b, k)
    ensures Arrays(a, kinds) == Arrays(b, kinds) && ArrayCount(a, kinds) == ArrayCount(b, kinds)
    decreases |kinds|
  {
    hide DataOf, CompleteOf, AllUnits, ArrayBytes;
    if kinds != [] {
      assert kinds[0] in kinds;
      ArraysSame(a, b, kinds[1..]);
    }
  }

  // ---------------------------------------------------------------------------
  // The record

  lemma {:induction false} KindsFine()
    ensures Distinct(KINDS) && AllKinds(KINDS)
  {
    assert Distinct([]);
    DistinctCons(SUFFIX_SEI, []);
    DistinctCons(PREFIX_SEI, [SUFFIX_SEI]);
    DistinctCons(PPS, [PREFIX_SEI, SUFFIX_SEI]);
    DistinctCons(SPS, [PPS, PREFIX_SEI, SUFFIX_SEI]);
    DistinctCons(VPS, [SPS, PPS, PREFIX_SEI, SUFFIX_SEI]);
    hide Distinct;
    var none: seq<nat> := [];
    assert [SUFFIX_SEI] + none == [SUFFIX_SEI] && [PREFIX_SEI] + [SUFFIX_SEI] == [PREFIX_SEI, SUFFIX_SEI];
    assert [PPS] + [PREFIX_SEI, SUFFIX_SEI] == [PPS, PREFIX_SEI, SUFFIX_SEI];
    assert [SPS] + [PPS, PREFIX_SEI, SUFFIX_SEI] == [SPS, PPS, PREFIX_SEI, SUFFIX_SEI];
    assert [VPS] + [SPS, PPS, PREFIX_SEI, SUFFIX_SEI] == KINDS;
  }

  lemma {:induction false} DistinctCons(k: nat, kinds: seq<nat>)
    requires k !in kinds && Distinct(kinds)
    ensures Distinct([k] + kinds)
  {
    assert ([k] + kinds)[1..] == kinds;
  }

  // What a store can hold is loaded back after a save: the same fields, and the units of the known types grouped.
  lemma {:induction false} SaveLoads(f: Fields, us: seq<Unit>, room: nat)
    requires InRange(f) && AllUnits(us) && |us| <= MAX_UNITS && UnitsTotal(us) <= ARENA
    requires SavedUnits(f, us, room).Some?
    ensures var saved, g := SavedUnits(f, us, room).value, Grouped(us, KINDS);
      LoadAll(saved) == Some(LoadedUnits(f, g, UnitsTotal(g), |saved|))
  {
    hide LoadArrays, Arrays, Grouped, UnitsTotal, FieldBytes, ReadFields, ArrayCount, AllUnits;
    KindsFine();
    var n := ArrayCount(us, KINDS);
    var saved := SavedUnits(f, us, room).value;
    FieldsReadBack(f, n);
    assert saved[..HEAD_SIZE] == FieldBytes(f, n) && saved[HEAD_SIZE..] == Arrays(us, KINDS) + [];
    assert saved[0] == FieldBytes(f, n)[0] && saved[22] == FieldBytes(f, n)[22];
    ArraysLoad(us, KINDS, [], 0, 0);
    GroupedSmaller(us, KINDS);
    var g := Grouped(us, KINDS);
    assert LoadArrays(saved[HEAD_SIZE..], saved[22], 0, 0) == Some(Got(g, [], UnitsTotal(g)));
  }

  // Saving what was loaded gives identical bytes.
  lemma {:induction false} SecondSave(f: Fields, us: seq<Unit>, room: nat)
    requires InRange(f) && AllUnits(us) && |us| <= MAX_UNITS
    ensures var g := Grouped(us, KINDS);
      AllUnits(g) && |g| <= MAX_UNITS && SavedUnits(f, g, room) == SavedUnits(f, us, room)
  {
    hide Arrays, Grouped, UnitsTotal, FieldBytes, ArrayCount, AllUnits, DataOf, CompleteOf;
    KindsFine();
    var g := Grouped(us, KINDS);
    GroupedValid(us, KINDS);
    GroupedSmaller(us, KINDS);
    forall k | k in KINDS ensures DataOf(g, k) == DataOf(us, k) && CompleteOf(g, k) == CompleteOf(us, k) {
      GroupedStable(us, KINDS, k);
    }
    ArraysSame(g, us, KINDS);
  }
}
