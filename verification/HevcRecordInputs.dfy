/** How large the HEVC configuration record is, and what any input is loaded as. */
module HevcRecordInputs {
  import opened Bytes
  import opened Options
  import opened AvcRecord
  import opened AvcRecordInputs
  import opened HevcRecord

  // ---------------------------------------------------------------------------
  // The size

  lemma {:induction false} UnitsSize(datas: seq<bytes>)
    requires AllShort(datas)
    ensures |Units(datas)| == 2 * |datas| + Size(datas)
  {
    hide Be16;
    if datas != [] { UnitsSize(datas[1..]); }
  }

  // Three bytes for every array, two for every unit, and the units.
  lemma {:induction false} ArraysSize(us: seq<Unit>, kinds: seq<nat>)
    requires AllUnits(us) && |us| <= MAX_UNITS && AllKinds(kinds)
    ensures |Arrays(us, kinds)| == 3 * ArrayCount(us, kinds) + 2 * |Grouped(us, kinds)| + UnitsTotal(Grouped(us, kinds))
    decreases |kinds|
  {
    hide DataOf, CompleteOf, As, Units, AllUnits, AllShort, UnitsTotal, Size, Be16;
    if kinds == [] {
      NoArrays(us, [], 0, 0);
    } else {
      DataOfShort(us, kinds[0]);
      ArraysCons(us, kinds);
      ArraysSize(us, kinds[1..]);
      var (complete, datas) := (CompleteOf(us, kinds[0]), DataOf(us, kinds[0]));
      UnitsSize(datas);
      AsTotal(kinds[0], complete, datas);
      TotalConcat(As(kinds[0], complete, datas), Grouped(us, kinds[1..]));
      if datas == [] { SizeNone(); }
    }
  }

  lemma {:induction false} SizeNone()
    ensures Size([]) == 0
  {
  }

  // The arrays of a saved record: video, sequence and picture parameter sets, then prefix and suffix SEI.
  lemma {:induction false} SavedOrder(us: seq<Unit>)
    ensures Grouped(us, KINDS) ==
      As(32, CompleteOf(us, 32), DataOf(us, 32)) + As(33, CompleteOf(us, 33), DataOf(us, 33))
      + As(34, CompleteOf(us, 34), DataOf(us, 34)) + As(39, CompleteOf(us, 39), DataOf(us, 39))
      + As(40, CompleteOf(us, 40), DataOf(us, 40))
  {
    hide As, CompleteOf, DataOf;
    var k1: seq<nat>, k2: seq<nat>, k3: seq<nat>, k4: seq<nat> := [33, 34, 39, 40], [34, 39, 40], [39, 40], [40];
    assert KINDS[1..] == k1 && k1[1..] == k2 && k2[1..] == k3 && k3[1..] == k4 && k4[1..] == [];
    assert Grouped(us, k4) == As(40, CompleteOf(us, 40), DataOf(us, 40)) + Grouped(us, []);
    assert Grouped(us, k3) == As(39, CompleteOf(us, 39), DataOf(us, 39)) + Grouped(us, k4);
    assert Grouped(us, k2) == As(34, CompleteOf(us, 34), DataOf(us, 34)) + Grouped(us, k3);
    assert Grouped(us, k1) == As(33, CompleteOf(us, 33), DataOf(us, 33)) + Grouped(us, k2);
  }

  // A record is saved exactly when it fits.
  lemma {:induction false} SavedIff(f: Fields, us: seq<Unit>, room: nat)
    requires InRange(f) && AllUnits(us) && |us| <= MAX_UNITS
    ensures var g := Grouped(us, KINDS);
      var size := 23 + 3 * ArrayCount(us, KINDS) + 2 * |g| + UnitsTotal(g);
      && (SavedUnits(f, us, room) == None <==> room < size)
      && (SavedUnits(f, us, room).Some? ==> |SavedUnits(f, us, room).value| == size)
  {
    hide Arrays, Grouped, UnitsTotal, ArrayCount, AllUnits;
    KindsFine();
    ArraysSize(us, KINDS);
  }

  // ---------------------------------------------------------------------------
  // Any input

  lemma {:induction false} ArrayEnds(data: bytes, head: byte, count: nat, used: nat)
    ensures LoadArray(data, head, 0, count, used) == Some(Got([], data, used))
    ensures AllShort([]) && Units([]) + data == data && Size([]) == 0 && As(head as nat % 64, head as nat / 128, []) == []
  {
  }

  predicate UnitFits(data: bytes, count: nat, used: nat) {
    count < MAX_UNITS && |data| >= 2 && 2 + Read16(data[..2]) <= |data| && used + Read16(data[..2]) <= ARENA
  }

  lemma {:induction false} ArrayNext(data: bytes, head: byte, n: nat, count: nat, used: nat) returns (u: bytes, rest: bytes)
    requires n > 0
    ensures !UnitFits(data, count, used) ==> LoadArray(data, head, n, count, used) == None
    ensures UnitFits(data, count, used) ==>
      && |u| < 0x1_0000 && data == Be16(|u|) + (u + rest) && used + |u| <= ARENA && count < MAX_UNITS
      && LoadArray(data, head, n, count, used)
         == Before([Unit(head as nat % 64, head as nat / 128, u)], LoadArray(rest, head, n - 1, count + 1, used + |u|))
  {
    hide Before, Be16, Read16;
    u, rest := [], data;
    if UnitFits(data, count, used) {
      var len := Read16(data[..2]);
      u, rest := data[2..2 + len], data[2 + len..];
      Parted(data, len);
    }
  }

  // The units of one array that were loaded are there, all of them, and as the head of the array says.
  lemma {:induction false} ArrayThere(data: bytes, head: byte, n: nat, count: nat, used: nat) returns (datas: seq<bytes>)
    requires LoadArray(data, head, n, count, used).Some?
    ensures var g := LoadArray(data, head, n, count, used).value;
      && |datas| == n && AllShort(datas) && data == Units(datas) + g.rest && g.used == used + Size(datas)
      && g.units == As(head as nat % 64, head as nat / 128, datas)
      && (n > 0 ==> count + n <= MAX_UNITS && g.used <= ARENA)
    decreases n
  {
    hide LoadArray, Units, Size, AllShort, Be16, Read16, UnitFits, As;
    if n == 0 {
      ArrayEnds(data, head, count, used);
      datas := [];
    } else {
      var u, rest := ArrayNext(data, head, n, count, used);
      var more := ArrayThere(rest, head, n - 1, count + 1, used + |u|);
      var g := LoadArray(rest, head, n - 1, count + 1, used + |u|).value;
      OneUnit(u, more, g.rest);
      datas := [u] + more;
      AsCons(head as nat % 64, head as nat / 128, datas);
      assert datas[1..] == more;
      if n == 1 { ArrayEnds(rest, head, count + 1, used + |u|); }
    }
  }

  // Loading an array fails at a unit that is cut off, or for which the table or the arena is full.
  lemma {:induction false} ArrayFails(data: bytes, head: byte, n: nat, count: nat, used: nat)
    returns (datas: seq<bytes>, rest: bytes)
    requires LoadArray(data, head, n, count, used) == None
    ensures |datas| < n && AllShort(datas) && data == Units(datas) + rest
    ensures !UnitFits(rest, count + |datas|, used + Size(datas))
    decreases n
  {
    hide LoadArray, Units, Size, AllShort, Be16, Read16, UnitFits, As;
    ArrayEnds(data, head, count, used);
    datas, rest := [], data;
    if UnitFits(data, count, used) {
      var u, more := ArrayNext(data, head, n, count, used);
      datas, rest := ArrayFails(more, head, n - 1, count + 1, used + |u|);
      OneUnit(u, datas, rest);
      datas := [u] + datas;
    }
  }

  // An array as it is in the data: one byte of type and completeness, the number of units, and the units.
  datatype Group = Group(head: byte, datas: seq<bytes>)

  predicate AllGroups(gs: seq<Group>) {
    gs == [] || (AllShort(gs[0].datas) && |gs[0].datas| < 0x1_0000 && AllGroups(gs[1..]))
  }

  function GroupBytes(gs: seq<Group>): bytes
    requires AllGroups(gs)
  {
    if gs == [] then [] else [gs[0].head] + Be16(|gs[0].datas|) + Units(gs[0].datas) + GroupBytes(gs[1..])
  }

  function GroupUnits(gs: seq<Group>): seq<Unit> {
    if gs == [] then []
    else As(gs[0].head as nat % 64, gs[0].head as nat / 128, gs[0].datas) + GroupUnits(gs[1..])
  }

  lemma {:induction false} GroupCons(g: Group, gs: seq<Group>, data: bytes, units: bytes, more: bytes, rest: bytes)
    requires AllGroups(gs) && AllShort(g.datas) && |g.datas| < 0x1_0000 && |data| >= 3 && data[0] == g.head
    requires data[1..3] == Be16(|g.datas|) && data[3..] == units && units == Units(g.datas) + more
    requires more == GroupBytes(gs) + rest
    ensures AllGroups([g] + gs) && data == GroupBytes([g] + gs) + rest
    ensures GroupUnits([g] + gs) == As(g.head as nat % 64, g.head as nat / 128, g.datas) + GroupUnits(gs)
  {
    hide Units, As, AllShort, Be16;
    assert ([g] + gs)[1..] == gs;
    assert data == [data[0]] + data[1..3] + data[3..];
  }

  lemma {:induction false} ArraysEnd(data: bytes, count: nat, used: nat)
    ensures LoadArrays(data, 0, count, used) == Some(Got([], data, used))
    ensures AllGroups([]) && GroupBytes([]) + data == data && GroupUnits([]) == [] && UnitsTotal([]) == 0
  {
  }

  lemma {:induction false} ArraysNext(data: bytes, arrays: nat, count: nat, used: nat)
    requires arrays > 0
    ensures LoadArrays(data, arrays, count, used) ==
      if |data| < 3 then None
      else
        var n := Read16(data[1..3]);
        match LoadArray(data[3..], data[0], n, count, used)
        case None => None
        case Some(g) => Before(g.units, LoadArrays(g.rest, arrays - 1, count + n, g.used))
  {
    hide LoadArray, Read16;
  }

  // The arrays that were loaded are there, all of them.
  lemma {:induction false} ArraysThere(data: bytes, arrays: nat, count: nat, used: nat) returns (gs: seq<Group>)
    requires LoadArrays(data, arrays, count, used).Some?
    ensures var g := LoadArrays(data, arrays, count, used).value;
      && |gs| == arrays && AllGroups(gs) && data == GroupBytes(gs) + g.rest && g.units == GroupUnits(gs)
      && g.used == used + UnitsTotal(g.units)
    decreases arrays
  {
    hide LoadArray, LoadArrays, Units, Size, AllShort, Be16, Read16, As, AllGroups, GroupBytes, GroupUnits;
    if arrays == 0 {
      ArraysEnd(data, count, used);
      gs := [];
    } else {
      ArraysNext(data, arrays, count, used);
      var n := Read16(data[1..3]);
      var datas := ArrayThere(data[3..], data[0], n, count, used);
      var g := LoadArray(data[3..], data[0], n, count, used).value;
      var more := ArraysThere(g.rest, arrays - 1, count + n, g.used);
      var r := LoadArrays(g.rest, arrays - 1, count + n, g.used).value;
      Be16Read(data[1..3]);
      GroupCons(Group(data[0], datas), more, data, data[3..], g.rest, r.rest);
      AsTotal(data[0] as nat % 64, data[0] as nat / 128, datas);
      TotalConcat(g.units, r.units);
      gs := [Group(data[0], datas)] + more;
    }
  }

  // Loading the arrays fails where fewer than three bytes are left, or an array fails.
  lemma {:induction false} ArraysFail(data: bytes, arrays: nat, count: nat, used: nat)
    returns (gs: seq<Group>, rest: bytes, total: nat, size: nat)
    requires LoadArrays(data, arrays, count, used) == None
    ensures |gs| < arrays && AllGroups(gs) && data == GroupBytes(gs) + rest
    ensures total == |GroupUnits(gs)| && size == UnitsTotal(GroupUnits(gs))
    ensures |rest| < 3 || LoadArray(rest[3..], rest[0], Read16(rest[1..3]), count + total, used + size) == None
    decreases arrays
  {
    hide LoadArray, LoadArrays, Units, Size, AllShort, Be16, Read16, As, AllGroups, GroupBytes, GroupUnits;
    ArraysEnd(data, count, used);
    gs, rest, total, size := [], data, 0, 0;
    ArraysNext(data, arrays, count, used);
    if |data| >= 3 && LoadArray(data[3..], data[0], Read16(data[1..3]), count, used).Some? {
      var n := Read16(data[1..3]);
      var datas := ArrayThere(data[3..], data[0], n, count, used);
      var g := LoadArray(data[3..], data[0], n, count, used).value;
      gs, rest, total, size := ArraysFail(g.rest, arrays - 1, count + n, g.used);
      Be16Read(data[1..3]);
      GroupCons(Group(data[0], datas), gs, data, data[3..], g.rest, rest);
      AsTotal(data[0] as nat % 64, data[0] as nat / 128, datas);
      TotalConcat(g.units, GroupUnits(gs));
      gs, total, size := [Group(data[0], datas)] + gs, total + n, size + UnitsTotal(g.units);
    }
  }

  // Whatever is loaded as a record is there: 23 bytes of version 1, and as many arrays as the last of them says.
  lemma {:induction false} LoadedIsThere(data: bytes) returns (gs: seq<Group>)
    requires LoadAll(data).Some?
    ensures var l := LoadAll(data).value;
      && |data| >= 23 && data[0] == 1 && l.fields == ReadFields(data[..23]) && |gs| == data[22] && AllGroups(gs)
      && l.consumed <= |data| && data[..l.consumed] == data[..23] + GroupBytes(gs)
      && l.units == GroupUnits(gs) && l.used == UnitsTotal(l.units)
  {
    hide LoadArrays, ReadFields, AllGroups, GroupBytes, GroupUnits;
    gs := ArraysThere(data[23..], data[22], 0, 0);
    var rest := LoadArrays(data[23..], data[22], 0, 0).value.rest;
    assert data == data[..23] + GroupBytes(gs) + rest;
  }

  // A record is refused exactly when it is too short, of another version, or its arrays fail.
  lemma {:induction false} RefusedIff(data: bytes)
    ensures LoadAll(data) == None <==> |data| < 23 || data[0] != 1 || LoadArrays(data[23..], data[22], 0, 0) == None
  {
    hide LoadArrays, ReadFields;
  }

  // ---------------------------------------------------------------------------
  // The fixed fields

  // An example, byte by byte: a Main profile stream of level 6, 4:2:0, one temporal layer.
  lemma {:induction false} ExampleFields()
    ensures var f := Fields(0, 0, 1, 0x6000_0000, 0x8000_0000_0000, 0xB4, 0, 0, 1, 0, 0, 0, 0, 1, 1, 3);
      InRange(f) && FieldBytes(f, 3) == [
        0x01, 0x01, 0x60, 0x00, 0x00, 0x00, 0x80, 0x00, 0x00, 0x00, 0x00, 0x00, 0xB4, 0xF0, 0x00,
        0xFC, 0xFD, 0xF8, 0xF8, 0x00, 0x00, 0x0F, 0x03]
  {
  }

  // And one in which every field is set.
  lemma {:induction false} ExampleAllFields()
    ensures var f := Fields(2, 1, 5, 0x0102_0304, 0x0506_0708_090A, 0x0B, 0x0C0D, 2, 3, 4, 5, 0x0E0F, 2, 3, 1, 1);
      InRange(f) && FieldBytes(f, 7) == [
        0x01, 0xA5, 0x01, 0x02, 0x03, 0x04, 0x05, 0x06, 0x07, 0x08, 0x09, 0x0A, 0x0B, 0xFC, 0x0D,
        0xFE, 0xFF, 0xFC, 0xFD, 0x0E, 0x0F, 0x9D, 0x07]
  {
  }
}
