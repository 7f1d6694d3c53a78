/** H.264 from start codes to length prefixes and back. */
module Mp4Framing {
  import opened Bytes
  import opened AvcSets
  import opened AnnexB
  import opened Options

  // ---------------------------------------------------------------------------
  // From start codes to length prefixes

  // The converter while it runs: the store, the output, and the last error.
  datatype Muxer = Muxer(sets: Sets, out: bytes, err: int, update: bool, vcl: int)

  function OnUnit(m: Muxer, capacity: nat, nalu: bytes): Muxer
    requires nalu != [] && |nalu| < POW32
  {
    var (sets, r) := Update(m.sets, nalu);
    var kind := NalType(nalu);
    var fits := capacity >= |m.out| + |nalu| + 4;
    Muxer(sets,
          if fits then m.out + (Be32(|nalu|) + nalu) else m.out,
          if !fits then -1 else if r < 0 then r else m.err,
          m.update || r == 1,
          if 1 <= kind <= NAL_IDR then (if kind == NAL_IDR then 1 else 2) else m.vcl)
  }

  predicate Ordinary(us: seq<bytes>) { forall i :: 0 <= i < |us| ==> us[i] != [] && |us[i]| < POW32 }

  function OnUnits(m: Muxer, capacity: nat, us: seq<bytes>): Muxer
    requires Ordinary(us)
    decreases |us|
  {
    if us == [] then m else OnUnits(OnUnit(m, capacity, us[0]), capacity, us[1..])
  }

  lemma {:induction false} UnitsOrdinary(s: bytes)
    requires !FramingOf(s).Undecided? && |s| < POW32
    ensures Ordinary(Units(s))
  {
    if FramingOf(s).Prefixed? {
      PrefixedOrdinary(s, FramingOf(s).size);
    } else {
      var first := StartCode(s, 2);
      if first.Some? { BehindOrdinary(s[first.value..]); }
    }
  }

  lemma {:induction false} PrefixedOrdinary(s: bytes, size: nat)
    requires (size == 3 || size == 4) && |s| < POW32
    ensures Ordinary(PrefixedUnits(s, size))
    decreases |s|
  {
    if |s| > size && LengthAt(s, size) + size <= |s| { PrefixedOrdinary(s[size + LengthAt(s, size)..], size); }
  }

  lemma {:induction false} BehindOrdinary(s: bytes)
    requires |s| < POW32
    ensures Ordinary(UnitsBehind(s))
    decreases |s|
  {
    var next := StartCode(s, 2);
    if next.Some? { BehindOrdinary(s[next.value..]); }
  }

  datatype Converted = Converted(result: int, m: Muxer)

  // The output counts only when no error occurred.
  function ToMp4(sets: Sets, data: bytes, capacity: nat): Converted
    requires !FramingOf(data).Undecided? && |data| < POW32
  {
    UnitsOrdinary(data);
    var m := OnUnits(Muxer(sets, [], 0, false, 0), capacity, Units(data));
    Converted(if m.err == 0 then |m.out| else 0, m)
  }

  // ---------------------------------------------------------------------------
  // The stored sets as start-code framed units

  predicate LooksFramed(u: bytes) {
    |u| >= 4 && u[0] == 0 && u[1] == 0 && (u[2] == 1 || (u[2] == 0 && u[3] == 1))
  }

  function SetBytes(u: bytes): bytes { (if LooksFramed(u) then [] else START_CODE) + u }

  function AllSetBytes(us: seq<bytes>): bytes {
    if us == [] then [] else SetBytes(us[0]) + AllSetBytes(us[1..])
  }

  // What was written, and whether every set was.
  datatype Writing = Writing(k: bytes, complete: bool)

  // Write sets behind `k` until one does not pass the room check.
  function WriteSets(us: seq<bytes>, k: bytes, capacity: nat, spare: nat): Writing {
    if us == [] then Writing(k, true)
    else if capacity < |k| + |us[0]| + spare then Writing(k, false)
    else WriteSets(us[1..], k + SetBytes(us[0]), capacity, spare)
  }

  // Room is checked for four extra bytes per sequence parameter set, but for two per picture parameter set.
  function SetsToUnits(s: Sets, capacity: nat): Writing {
    var w := WriteSets(s.sps, [], capacity, 4);
    if w.complete then WriteSets(s.pps, w.k, capacity, 2) else w
  }

  // The size the output is shifted by to make room for the sets.
  function SetsSize(us: seq<bytes>): nat { if us == [] then 0 else |us[0]| + 4 + SetsSize(us[1..]) }

  function StoreSize(s: Sets): nat { SetsSize(s.sps) + SetsSize(s.pps) }

  // ---------------------------------------------------------------------------
  // From length prefixes to start codes

  // The converter while it runs: the whole output buffer, how much of it is output, whether a parameter set was seen
  // or inserted, and the last error.
  datatype Demuxer = Demuxer(buf: bytes, room: nat, count: nat, seen: bool, err: int)

  const EINVAL := 22
  const E2BIG := 7

  predicate Sound(d: Demuxer) { d.count <= |d.buf| && d.room <= |d.buf| }

  function Emit(d: Demuxer, nalu: bytes): (r: Demuxer)
    requires Sound(d)
    ensures Sound(r) && |r.buf| == |d.buf| && r.room == d.room
  {
    if d.count + |nalu| + 4 > d.room then d.(err := -E2BIG)
    else d.(buf := Written(d.buf, d.count, START_CODE + nalu), count := d.count + 4 + |nalu|)
  }

  // All that is written for the stored sets lies in a buffer of that size.
  predicate SetsInside(s: Sets, room: nat, size: nat) { |SetsToUnits(s, room).k| <= size }

  lemma {:induction false} FourSuffice(us: seq<bytes>, k: bytes, capacity: nat)
    requires |k| <= capacity
    ensures |WriteSets(us, k, capacity, 4).k| <= capacity
  {
    if us != [] && capacity >= |k| + |us[0]| + 4 { FourSuffice(us[1..], k + SetBytes(us[0]), capacity); }
  }

  lemma {:induction false} WriteSetsGrows(us: seq<bytes>, k: bytes, capacity: nat, spare: nat)
    ensures |k| <= |WriteSets(us, k, capacity, spare).k|
  {
    if us != [] && capacity >= |k| + |us[0]| + spare { WriteSetsGrows(us[1..], k + SetBytes(us[0]), capacity, spare); }
  }

  // A picture parameter set, `at` bytes being written before it, passes its check and ends behind the room.
  predicate Crosses(u: bytes, at: nat, capacity: nat) { at + |u| + 2 <= capacity < at + |SetBytes(u)| }

  // Some set does, each being written behind those in front of it.
  predicate SomeCrosses(us: seq<bytes>, at: nat, capacity: nat) {
    us != [] && (Crosses(us[0], at, capacity) || SomeCrosses(us[1..], at + |SetBytes(us[0])|, capacity))
  }

  lemma {:induction false} NoneBehind(us: seq<bytes>, at: nat, capacity: nat)
    requires capacity < at + 2
    ensures !SomeCrosses(us, at, capacity)
    decreases |us|
  {
    if us != [] { NoneBehind(us[1..], at + |SetBytes(us[0])|, capacity); }
  }

  lemma {:induction false} TwoCross(us: seq<bytes>, k: bytes, capacity: nat)
    requires |k| <= capacity
    ensures |WriteSets(us, k, capacity, 2).k| > capacity <==> SomeCrosses(us, |k|, capacity)
    ensures |WriteSets(us, k, capacity, 2).k| <= capacity + 2
    decreases |us|
  {
    if us != [] {
      var k1, more := k + SetBytes(us[0]), us[1..];
      if capacity < |k| + |us[0]| + 2 {
        NoneBehind(more, |k1|, capacity);
      } else if capacity < |k1| {
        WriteSetsGrows(more, k1, capacity, 2);
        assert more == [] || capacity < |k1| + |more[0]| + 2;
      } else {
        TwoCross(more, k1, capacity);
      }
    }
  }

  lemma {:induction false} CompleteBytes(us: seq<bytes>, k: bytes, capacity: nat, spare: nat)
    ensures WriteSets(us, k, capacity, spare).complete ==> WriteSets(us, k, capacity, spare).k == k + AllSetBytes(us)
  {
    if us == [] {
      assert k + [] == k;
    } else {
      CompleteBytes(us[1..], k + SetBytes(us[0]), capacity, spare);
      assert k + SetBytes(us[0]) + AllSetBytes(us[1..]) == k + AllSetBytes(us);
    }
  }

  // The room is overrun, by two bytes at most, exactly when all sequence parameter sets fit and some picture parameter
  // set passes the check that asks two bytes too few without the room for itself and its start code.
  lemma {:induction false} SetsOverrun(s: Sets, capacity: nat)
    ensures |SetsToUnits(s, capacity).k| > capacity <==>
      WriteSets(s.sps, [], capacity, 4).complete
      && SomeCrosses(s.pps, |AllSetBytes(s.sps)|, capacity)
    ensures |SetsToUnits(s, capacity).k| <= capacity + 2
  {
    hide SetBytes, AllSetBytes, SomeCrosses;
    var w := WriteSets(s.sps, [], capacity, 4);
    FourSuffice(s.sps, [], capacity);
    CompleteBytes(s.sps, [], capacity, 4);
    assert [] + AllSetBytes(s.sps) == AllSetBytes(s.sps);
    if w.complete { TwoCross(s.pps, w.k, capacity); }
  }

  // Put the stored sets in front of the output so far.
  function Insert(s: Sets, d: Demuxer): (r: Demuxer)
    requires Sound(d) && SetsInside(s, d.room, |d.buf|)
    ensures Sound(r) && |r.buf| == |d.buf| && r.room == d.room
  {
    var n := StoreSize(s);
    if d.count > 0 && n + d.count > d.room then d.(err := -E2BIG)
    else
      var moved := if d.count > 0 then Written(d.buf, n, d.buf[..d.count]) else d.buf;
      var w := SetsToUnits(s, d.room);
      SetsShorter(s, d.room);
      var buf := Written(moved, 0, w.k);
      if !w.complete then d.(buf := buf, err := -1)
      else if w.k == [] then d.(buf := buf, err := -EINVAL)
      else Demuxer(buf, d.room, d.count + |w.k|, true, d.err)
  }

  lemma {:induction false} SetsShorter(s: Sets, capacity: nat)
    ensures |SetsToUnits(s, capacity).k| <= StoreSize(s)
  {
    WriteSetsShorter(s.sps, [], capacity, 4);
    var w := WriteSets(s.sps, [], capacity, 4);
    if w.complete { WriteSetsShorter(s.pps, w.k, capacity, 2); }
  }

  lemma {:induction false} WriteSetsShorter(us: seq<bytes>, k: bytes, capacity: nat, spare: nat)
    ensures |WriteSets(us, k, capacity, spare).k| <= |k| + SetsSize(us)
  {
    if us != [] { WriteSetsShorter(us[1..], k + SetBytes(us[0]), capacity, spare); }
  }

  // A sequence or picture parameter set met first keeps the stored ones out; otherwise they go in front of everything
  // at the first IDR unit. A unit for which insertion fails is dropped.
  function OnPrefixed(s: Sets, d: Demuxer, nalu: bytes): (r: Demuxer)
    requires nalu != [] && Sound(d) && SetsInside(s, d.room, |d.buf|)
    ensures Sound(r) && |r.buf| == |d.buf| && r.room == d.room
  {
    var kind := NalType(nalu);
    if kind == NAL_SPS || kind == NAL_PPS then Emit(d.(seen := true), nalu)
    else if kind == NAL_IDR && !d.seen then
      var e := Insert(s, d);
      if e.seen then Emit(e, nalu) else e
    else Emit(d, nalu)
  }

  function OnAllPrefixed(s: Sets, d: Demuxer, us: seq<bytes>): (r: Demuxer)
    requires Sound(d) && SetsInside(s, d.room, |d.buf|) && forall i :: 0 <= i < |us| ==> us[i] != []
    ensures Sound(r) && |r.buf| == |d.buf| && r.room == d.room
    decreases |us|
  {
    if us == [] then d else OnAllPrefixed(s, OnPrefixed(s, d, us[0]), us[1..])
  }

  // Walk the length-prefixed units of `data`. A length of 1 stands for a start code: the rest is then split at start
  // codes, as is everything when the length size is not known. A length of 0 or past the end is refused.
  function Walk(s: Sets, size: nat, d: Demuxer, data: bytes): (r: Option<Demuxer>)
    requires size <= 4 && Sound(d) && SetsInside(s, d.room, |d.buf|) && |data| < 0x8000_0000
    requires !Stuck(size, data)
    ensures r.Some? ==> Sound(r.value)
    decreases |data|
  {
    if |data| <= size then Some(d)
    else
      var n := LengthAt(data, size);
      if size == 0 || (n == 1 && size >= 3) then
        UnitsOrdinary(data);
        Some(OnAllPrefixed(s, d, Units(data)))
      else if n == 0 || size + n > |data| then None
      else Walk(s, size, OnPrefixed(s, d, data[size..size + n]), data[size + n..])
  }

  // Splitting the rest would never end.
  predicate Stuck(size: nat, data: bytes)
    requires size <= 4
    decreases |data|
  {
    |data| > size &&
    var n := LengthAt(data, size);
    if size == 0 || (n == 1 && size >= 3) then FramingOf(data).Undecided?
    else n != 0 && size + n <= |data| && Stuck(size, data[size + n..])
  }

  // Which cannot happen with the length sizes 1, 2 and 4: the rest then begins with a start code of four bytes.
  lemma {:induction false} StuckSizes(size: nat, data: bytes)
    requires size <= 4 && Stuck(size, data)
    ensures size == 0 || size == 3
    decreases |data|
  {
    hide ReadsAsPrefixed;
    if size > 0 && size != 3 {
      var n := LengthAt(data, size);
      if size == 4 { assert n == LengthAt(data, 3) * 256 + data[3] as nat; }
      if !(n == 1 && size == 4) { StuckSizes(size, data[size + n..]); }
    }
  }

  datatype Result = Result(result: int, buf: bytes)

  // Into the first `room` bytes of `buf`; behind them lies only what an overrun reaches.
  function ToAnnexB(s: Sets, size: nat, data: bytes, buf: bytes, room: nat): Result
    requires room <= |buf| && |SetsToUnits(s, room).k| <= |buf|
    requires size <= 4 && |data| < 0x8000_0000 && !Stuck(size, data)
  {
    match Walk(s, size, Demuxer(buf, room, 0, false, 0), data)
    case None => Result(-EINVAL, [])
    case Some(d) => Result(if d.err == 0 then d.count else 0, d.buf)
  }

  // ---------------------------------------------------------------------------
  // There and back

  // No stored set looks like it carries its own start code.
  predicate Plain(s: Sets) {
    && (forall i :: 0 <= i < |s.sps| ==> !LooksFramed(s.sps[i]))
    && (forall i :: 0 <= i < |s.pps| ==> !LooksFramed(s.pps[i]))
  }

  lemma {:induction false} UpdatePlain(s: Sets, nalu: bytes)
    requires Plain(s) && nalu != []
    ensures Plain(Update(s, nalu).0)
  {
    hide SpsId, PpsId, Find;
  }

  // Every parameter set among `us` is well-formed and finds room.
  ghost predicate Storable(s: Sets, us: seq<bytes>)
    requires Ordinary(us)
    decreases |us|
  {
    us == [] || (Update(s, us[0]).1 >= 0 && Storable(Update(s, us[0]).0, us[1..]))
  }

  function Stored(s: Sets, us: seq<bytes>): Sets
    requires Ordinary(us)
    decreases |us|
  {
    if us == [] then s else Stored(Update(s, us[0]).0, us[1..])
  }

  lemma {:induction false} OnUnitsPrefixes(m: Muxer, capacity: nat, us: seq<bytes>)
    requires Ordinary(us) && Storable(m.sets, us) && m.err == 0
    requires capacity >= |m.out| + |PrefixedAll(us)|
    ensures var r := OnUnits(m, capacity, us);
            r.out == m.out + PrefixedAll(us) && r.err == 0 && r.sets == Stored(m.sets, us)
    decreases |us|
  {
    hide Update;
    if us != [] {
      var n := OnUnit(m, capacity, us[0]);
      assert n.out == m.out + (Be32(|us[0]|) + us[0]);
      OnUnitsPrefixes(n, capacity, us[1..]);
    }
  }

  lemma {:induction false} StoredPlain(s: Sets, us: seq<bytes>)
    requires Ordinary(us) && Plain(s)
    ensures Plain(Stored(s, us))
    decreases |us|
  {
    hide Update;
    if us != [] {
      UpdatePlain(s, us[0]);
      StoredPlain(Update(s, us[0]).0, us[1..]);
    }
  }

  lemma {:induction false} LengthOfPrefix(v: nat, rest: bytes)
    requires v < POW32
    ensures LengthAt(Be32(v) + rest, 4) == v
  {
    var s := Be32(v) + rest;
    assert s[0] == v / 0x100_0000 && s[1] == v / 0x1_0000 % 0x100 && s[2] == v / 0x100 % 0x100 && s[3] == v % 0x100;
    assert LengthAt(s, 0) == 0;
    assert LengthAt(s, 1) == s[0];
    assert LengthAt(s, 2) == s[0] as int * 256 + s[1] as int;
    assert LengthAt(s, 3) == LengthAt(s, 2) * 256 + s[2] as int;
    Be32RoundTrip(v);
  }

  predicate Sized(us: seq<bytes>) { forall i :: 0 <= i < |us| ==> 2 <= |us[i]| < 0x8000_0000 }

  lemma {:induction false} WalkPrefixed(s: Sets, d: Demuxer, us: seq<bytes>)
    requires Sound(d) && SetsInside(s, d.room, |d.buf|) && Sized(us) && |PrefixedAll(us)| < 0x8000_0000
    ensures !Stuck(4, PrefixedAll(us))
    ensures Walk(s, 4, d, PrefixedAll(us)) == Some(OnAllPrefixed(s, d, us))
    decreases |us|
  {
    hide OnPrefixed, SetsInside;
    if us != [] {
      var u, rest := us[0], PrefixedAll(us[1..]);
      var data := PrefixedAll(us);
      assert data == Be32(|u|) + (u + rest);
      LengthOfPrefix(|u|, u + rest);
      assert data[4..4 + |u|] == u && data[4 + |u|..] == rest;
      WalkPrefixed(s, OnPrefixed(s, d, u), us[1..]);
    }
  }

  function Output(d: Demuxer): bytes
    requires Sound(d)
  {
    d.buf[..d.count]
  }

  lemma {:induction false} EmitOutput(d: Demuxer, nalu: bytes)
    requires Sound(d) && d.count + 4 + |nalu| <= d.room
    ensures Output(Emit(d, nalu)) == Output(d) + (START_CODE + nalu)
    ensures Emit(d, nalu).err == d.err && Emit(d, nalu).seen == d.seen
  {
    var x := START_CODE + nalu;
    assert (d.buf[..d.count] + x + d.buf[d.count + |x|..])[..d.count + |x|] == d.buf[..d.count] + x;
  }

  function SetPrefix(s: Sets): bytes { AllSetBytes(s.sps) + AllSetBytes(s.pps) }

  lemma {:induction false} WriteSetsWrites(us: seq<bytes>, k: bytes, capacity: nat, spare: nat)
    requires spare <= 4 && capacity >= |k| + SetsSize(us)
    requires forall i :: 0 <= i < |us| ==> !LooksFramed(us[i])
    ensures WriteSets(us, k, capacity, spare) == Writing(k + AllSetBytes(us), true)
    ensures |AllSetBytes(us)| == SetsSize(us)
  {
    hide LooksFramed;
    if us == [] {
      assert k + [] == k;
    } else {
      WriteSetsWrites(us[1..], k + SetBytes(us[0]), capacity, spare);
      Regroup(k, SetBytes(us[0]), AllSetBytes(us[1..]));
    }
  }

  // With room for them, the sets written take exactly the size the output is shifted by.
  lemma {:induction false} SetsWritten(s: Sets, capacity: nat)
    requires Plain(s) && capacity >= StoreSize(s)
    ensures SetsToUnits(s, capacity) == Writing(SetPrefix(s), true) && |SetPrefix(s)| == StoreSize(s)
  {
    WriteSetsWrites(s.sps, [], capacity, 4);
    assert [] + AllSetBytes(s.sps) == AllSetBytes(s.sps);
    WriteSetsWrites(s.pps, AllSetBytes(s.sps), capacity, 2);
  }

  // Of sets without own start codes: `us[i]`, `at` bytes being written before the first, passes the check for two bytes
  // more than its own and does not have the four that it takes.
  predicate Short(us: seq<bytes>, at: nat, capacity: nat, i: nat)
    requires i < |us|
  {
    var from := at + SetsSize(us[..i]);
    from + |us[i]| + 2 <= capacity < from + |us[i]| + 4
  }

  lemma {:induction false} ShortNext(us: seq<bytes>, at: nat, capacity: nat, i: nat)
    requires 0 < i < |us|
    ensures Short(us, at, capacity, i) <==> Short(us[1..], at + |us[0]| + 4, capacity, i - 1)
  {
    assert us[..i][1..] == us[1..][..i - 1];
  }

  lemma {:induction false} ShortCrosses(us: seq<bytes>, at: nat, capacity: nat, i: nat)
    requires (forall j :: 0 <= j < |us| ==> !LooksFramed(us[j])) && i < |us| && Short(us, at, capacity, i)
    ensures SomeCrosses(us, at, capacity)
    decreases i
  {
    if i == 0 {
      assert us[..0] == [];
    } else {
      ShortNext(us, at, capacity, i);
      ShortCrosses(us[1..], at + |us[0]| + 4, capacity, i - 1);
    }
  }

  lemma {:induction false} CrossingShort(us: seq<bytes>, at: nat, capacity: nat) returns (i: nat)
    requires (forall j :: 0 <= j < |us| ==> !LooksFramed(us[j])) && SomeCrosses(us, at, capacity)
    ensures i < |us| && Short(us, at, capacity, i)
    decreases |us|
  {
    if Crosses(us[0], at, capacity) {
      i := 0;
      assert us[..0] == [];
    } else {
      i := CrossingShort(us[1..], at + |us[0]| + 4, capacity);
      i := i + 1;
      ShortNext(us, at, capacity, i);
    }
  }

  lemma {:induction false} FourComplete(us: seq<bytes>, k: bytes, capacity: nat)
    requires (forall j :: 0 <= j < |us| ==> !LooksFramed(us[j])) && |k| <= capacity
    ensures WriteSets(us, k, capacity, 4).complete <==> |k| + SetsSize(us) <= capacity
    ensures |AllSetBytes(us)| == SetsSize(us)
    decreases |us|
  {
    if us != [] {
      if |k| + |us[0]| + 4 <= capacity {
        FourComplete(us[1..], k + SetBytes(us[0]), capacity);
      } else {
        FourComplete(us[1..], [], capacity);
      }
    }
  }

  // What a caller can look at: without start codes in the sets, the room is overrun exactly when it ends one or two
  // bytes in front of the end of some picture parameter set.
  lemma {:induction false} PlainOverrun(s: Sets, capacity: nat)
    requires Plain(s)
    ensures |SetsToUnits(s, capacity).k| > capacity <==>
      exists i :: 0 <= i < |s.pps| && Short(s.pps, SetsSize(s.sps), capacity, i)
  {
    hide SetsToUnits, WriteSets, SomeCrosses, Short, LooksFramed;
    SetsOverrun(s, capacity);
    FourComplete(s.sps, [], capacity);
    if i :| 0 <= i < |s.pps| && Short(s.pps, SetsSize(s.sps), capacity, i) {
      ShortCrosses(s.pps, SetsSize(s.sps), capacity, i);
      ShortRoom(s.pps, SetsSize(s.sps), capacity, i);
    }
    if SomeCrosses(s.pps, SetsSize(s.sps), capacity) {
      var i := CrossingShort(s.pps, SetsSize(s.sps), capacity);
    }
  }

  lemma {:induction false} ShortRoom(us: seq<bytes>, at: nat, capacity: nat, i: nat)
    requires i < |us| && Short(us, at, capacity, i)
    ensures at <= capacity
  {
  }

  // One picture parameter set of two bytes passes the check of a room of four and takes six.
  lemma {:induction false} TwoBytesOverrun()
    ensures var s := Sets([], [[0x68, 0xCE]], 2);
      Plain(s) && SetsToUnits(s, 4) == Writing([0, 0, 0, 1, 0x68, 0xCE], true)
  {
    var us: seq<bytes> := [[0x68, 0xCE]];
    assert us[1..] == [] && [] + SetBytes(us[0]) == [0, 0, 0, 1, 0x68, 0xCE];
  }

  lemma {:induction false} InsertOutput(s: Sets, d: Demuxer)
    requires Sound(d) && Plain(s) && StoreSize(s) + d.count <= d.room && SetsInside(s, d.room, |d.buf|)
    ensures StoreSize(s) > 0 ==>
      var e := Insert(s, d); e.seen && e.err == d.err && Output(e) == SetPrefix(s) + Output(d)
  {
    SetsWritten(s, d.room);
    hide SetsToUnits, StoreSize, SetPrefix, Plain, SetsInside;
    var n, k := StoreSize(s), SetPrefix(s);
    if n > 0 {
      var moved := if d.count > 0 then Written(d.buf, n, d.buf[..d.count]) else d.buf;
      FrontWritten(d.buf, moved, d.count, n, k);
    }
  }

  lemma {:induction false} InsertNothing(s: Sets, d: Demuxer)
    requires Sound(d) && Plain(s) && StoreSize(s) == 0 && SetsInside(s, d.room, |d.buf|)
    ensures Insert(s, d).seen == d.seen && Insert(s, d).err == if d.count > d.room then -E2BIG else -EINVAL
  {
    SetsWritten(s, d.room);
    hide SetsToUnits, SetPrefix, Plain, SetsInside;
  }

  lemma {:induction false} FrontWritten(buf: bytes, moved: bytes, count: nat, n: nat, k: bytes)
    requires n + count <= |buf| && |k| == n
    requires moved == if count > 0 then Written(buf, n, buf[..count]) else buf
    ensures Written(moved, 0, k)[..count + n] == k + buf[..count]
  {
    assert moved[n..n + count] == buf[..count];
    assert Written(moved, 0, k) == k + moved[n..];
  }

  // The first parameter set or IDR unit among `us` is an IDR unit.
  predicate IdrFirst(us: seq<bytes>)
    requires forall i :: 0 <= i < |us| ==> us[i] != []
  {
    us != [] &&
    var kind := NalType(us[0]);
    kind == NAL_IDR || (kind != NAL_SPS && kind != NAL_PPS && IdrFirst(us[1..]))
  }

  lemma {:induction false} AllEmitted(s: Sets, d: Demuxer, us: seq<bytes>)
    requires Sound(d) && SetsInside(s, d.room, |d.buf|) && (forall i :: 0 <= i < |us| ==> us[i] != [])
    requires d.seen && d.count + |Framed(us)| <= d.room
    ensures var r := OnAllPrefixed(s, d, us); Output(r) == Output(d) + Framed(us) && r.err == d.err
    decreases |us|
  {
    hide SetsInside, Insert;
    if us != [] {
      EmitOutput(d, us[0]);
      AllEmitted(s, Emit(d, us[0]), us[1..]);
      assert Output(d) + (START_CODE + us[0]) + Framed(us[1..]) == Output(d) + Framed(us);
    }
  }

  lemma {:induction false} AllConverted(s: Sets, d: Demuxer, us: seq<bytes>)
    requires Sound(d) && Plain(s) && (forall i :: 0 <= i < |us| ==> us[i] != []) && SetsInside(s, d.room, |d.buf|)
    requires !d.seen && d.err == 0 && d.count + StoreSize(s) + |Framed(us)| <= d.room
    ensures var r := OnAllPrefixed(s, d, us);
      if !IdrFirst(us) then Output(r) == Output(d) + Framed(us) && r.err == 0
      else StoreSize(s) > 0 ==> Output(r) == SetPrefix(s) + Output(d) + Framed(us) && r.err == 0
    decreases |us|
  {
    hide SetsInside, Insert, Plain, SetPrefix, StoreSize, Emit;
    if us == [] {
    } else if NalType(us[0]) == NAL_IDR {
      if StoreSize(s) > 0 {
        InsertOutput(s, d);
        var e := Insert(s, d);
        SetPrefixSize(s, d.room);
        EmitOutput(e, us[0]);
        AllEmitted(s, Emit(e, us[0]), us[1..]);
        assert Output(e) + (START_CODE + us[0]) + Framed(us[1..]) == Output(e) + Framed(us);
      }
    } else {
      EmitOutput(d, us[0]);
      var e := Emit(d, us[0]);
      assert Output(d) + (START_CODE + us[0]) + Framed(us[1..]) == Output(d) + Framed(us);
      if NalType(us[0]) == NAL_SPS || NalType(us[0]) == NAL_PPS {
        EmitOutput(d.(seen := true), us[0]);
        AllEmitted(s, Emit(d.(seen := true), us[0]), us[1..]);
      } else {
        AllConverted(s, e, us[1..]);
        assert SetPrefix(s) + Output(e) + Framed(us[1..]) == SetPrefix(s) + Output(d) + Framed(us);
      }
    }
  }

  lemma {:induction false} SetPrefixSize(s: Sets, capacity: nat)
    requires Plain(s) && capacity >= StoreSize(s)
    ensures |SetPrefix(s)| == StoreSize(s)
  {
    SetsWritten(s, capacity);
  }

  lemma {:induction false} ErrorSticks(s: Sets, d: Demuxer, us: seq<bytes>)
    requires Sound(d) && SetsInside(s, d.room, |d.buf|) && (forall i :: 0 <= i < |us| ==> us[i] != [])
    requires d.err != 0
    ensures OnAllPrefixed(s, d, us).err != 0
    decreases |us|
  {
    hide SetsInside, SetsToUnits, StoreSize, Written;
    if us != [] {
      ErrorSticks(s, OnPrefixed(s, d, us[0]), us[1..]);
    }
  }

  // Without any set to insert, an IDR unit ahead of all parameter sets fails the conversion.
  lemma {:induction false} NothingToInsert(s: Sets, d: Demuxer, us: seq<bytes>)
    requires Sound(d) && Plain(s) && (forall i :: 0 <= i < |us| ==> us[i] != []) && SetsInside(s, d.room, |d.buf|)
    requires !d.seen && StoreSize(s) == 0 && IdrFirst(us)
    ensures OnAllPrefixed(s, d, us).err != 0
    decreases |us|
  {
    hide SetsInside, Insert, Plain, SetPrefix, StoreSize, Written;
    if NalType(us[0]) == NAL_IDR {
      InsertNothing(s, d);
      ErrorSticks(s, OnPrefixed(s, d, us[0]), us[1..]);
    } else if Emit(d, us[0]).err != 0 {
      ErrorSticks(s, OnPrefixed(s, d, us[0]), us[1..]);
    } else {
      NothingToInsert(s, Emit(d, us[0]), us[1..]);
    }
  }

  // One way: the framed units come out behind their lengths, and the store holds what they carried.
  lemma {:induction false} Prefixes(s: Sets, us: seq<bytes>, capacity: nat)
    requires us != [] && Sized(us) && (forall i :: 0 <= i < |us| ==> Carriable(us[i]))
    requires |Framed(us)| < 0x8000_0000 && capacity >= |Framed(us)|
    requires Plain(s) && Storable(s, us)
    ensures FramingOf(Framed(us)) == StartCodes
    ensures var c := ToMp4(s, Framed(us), capacity);
      && c.result == |c.m.out| == |Framed(us)| && c.m.out == PrefixedAll(us)
      && c.m.sets == Stored(s, us) && Plain(Stored(s, us))
  {
    UnitsFramed(us);
    SameSizes(us);
    UnitsOrdinary(Framed(us));
    OnUnitsPrefixes(Muxer(s, [], 0, false, 0), capacity, us);
    assert [] + PrefixedAll(us) == PrefixedAll(us);
    StoredPlain(s, us);
  }

  // And back, with the stored sets put in front where an IDR unit asks for them.
  lemma {:induction false} Reframes(sets: Sets, us: seq<bytes>, buf: bytes, room: nat)
    requires us != [] && Sized(us) && (forall i :: 0 <= i < |us| ==> Carriable(us[i]))
    requires |PrefixedAll(us)| == |Framed(us)| < 0x8000_0000 && Plain(sets)
    requires |buf| >= room >= StoreSize(sets) + |Framed(us)|
    ensures |SetsToUnits(sets, room).k| <= room && !Stuck(4, PrefixedAll(us))
    ensures var r := ToAnnexB(sets, 4, PrefixedAll(us), buf, room);
      if !IdrFirst(us) then r.result == |Framed(us)| <= |r.buf| && r.buf[..r.result] == Framed(us)
      else if StoreSize(sets) == 0 then r.result == 0
      else r.result == StoreSize(sets) + |Framed(us)| <= |r.buf|
           && r.buf[..r.result] == SetPrefix(sets) + Framed(us) && |SetPrefix(sets)| == StoreSize(sets)
  {
    SetsWritten(sets, room);
    hide OnAllPrefixed, Plain, StoreSize, SetPrefix, SetsInside, PrefixedAll, Framed, Walk, Stuck;
    var d := Demuxer(buf, room, 0, false, 0);
    WalkPrefixed(sets, d, us);
    AllConverted(sets, d, us);
    if IdrFirst(us) && StoreSize(sets) == 0 { NothingToInsert(sets, d, us); }
    assert Output(d) == [];
    assert [] + Framed(us) == Framed(us) && SetPrefix(sets) + [] == SetPrefix(sets);
  }

  // Units framed with start codes, converted to length prefixes and back, are the same bytes again; only when an IDR
  // unit comes before every parameter set does the store, as it then stands, go in front once, and fail if empty.
  lemma {:induction false} RoundTrip(s: Sets, us: seq<bytes>, capacity: nat, buf: bytes, room: nat)
    requires us != [] && Sized(us) && (forall i :: 0 <= i < |us| ==> Carriable(us[i]))
    requires |Framed(us)| < 0x8000_0000 && capacity >= |Framed(us)|
    requires Plain(s) && Storable(s, us)
    requires |buf| >= room >= StoreSize(Stored(s, us)) + |Framed(us)|
    ensures FramingOf(Framed(us)) == StartCodes
    ensures var c := ToMp4(s, Framed(us), capacity);
      var sets := c.m.sets;
      && c.result == |c.m.out| == |Framed(us)| && c.m.out == PrefixedAll(us) && sets == Stored(s, us)
      && |SetsToUnits(sets, room).k| <= room && !Stuck(4, c.m.out)
      && var r := ToAnnexB(sets, 4, c.m.out, buf, room);
         if !IdrFirst(us) then r.result == |Framed(us)| <= |r.buf| && r.buf[..r.result] == Framed(us)
         else if StoreSize(sets) == 0 then r.result == 0
         else r.result == StoreSize(sets) + |Framed(us)| <= |r.buf|
              && r.buf[..r.result] == SetPrefix(sets) + Framed(us) && |SetPrefix(sets)| == StoreSize(sets)
  {
    hide ToMp4, ToAnnexB, Plain, StoreSize, SetPrefix, SetsInside, Storable, Stored, PrefixedAll, Framed, Stuck;
    Prefixes(s, us, capacity);
    SameSizes(us);
    Reframes(Stored(s, us), us, buf, room);
  }

  lemma {:induction false} SameSizes(us: seq<bytes>)
    requires Sized(us)
    ensures |PrefixedAll(us)| == |Framed(us)|
  {
    if us != [] { SameSizes(us[1..]); }
  }

  // The last coded slice among `us`, if any, decides the picture kind reported: 1 for IDR, 2 for any other.
  lemma {:induction false} KindReported(m: Muxer, capacity: nat, us: seq<bytes>)
    requires Ordinary(us)
    ensures var kind := OnUnits(m, capacity, us).vcl;
      || (kind == m.vcl && forall i :: 0 <= i < |us| ==> !(1 <= NalType(us[i]) <= NAL_IDR))
      || (exists i :: 0 <= i < |us| && 1 <= NalType(us[i]) <= NAL_IDR
            && (kind == if NalType(us[i]) == NAL_IDR then 1 else 2)
            && forall j :: i < j < |us| ==> !(1 <= NalType(us[j]) <= NAL_IDR))
    decreases |us|
  {
    hide Update, NalType;
    if us != [] {
      var n, rest := OnUnit(m, capacity, us[0]), us[1..];
      KindReported(n, capacity, rest);
      var kind := OnUnits(n, capacity, rest).vcl;
      assert kind == OnUnits(m, capacity, us).vcl;
      if i :| 0 <= i < |rest| && 1 <= NalType(rest[i]) <= NAL_IDR
              && (kind == if NalType(rest[i]) == NAL_IDR then 1 else 2)
              && forall j :: i < j < |rest| ==> !(1 <= NalType(rest[j]) <= NAL_IDR) {
        assert us[i + 1] == rest[i];
        forall j | i + 1 < j < |us| ensures !(1 <= NalType(us[j]) <= NAL_IDR) { assert us[j] == rest[j - 1]; }
      } else {
        assert forall j :: 0 < j < |us| ==> us[j] == rest[j - 1];
        assert us[0] == us[0];
      }
    }
  }
}
