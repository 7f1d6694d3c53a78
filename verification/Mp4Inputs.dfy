/** The conversions of H.264 on whatever comes in. */
module Mp4Inputs {
  import opened Bytes
  import opened AvcSets
  import opened AnnexB
  import opened AnnexMixed
  import opened Mp4Framing
  import opened Options

  // ---------------------------------------------------------------------------
  // To length prefixes

  lemma {:induction false} MuxErrorSticks(m: Muxer, capacity: nat, us: seq<bytes>)
    requires Ordinary(us) && m.err != 0
    ensures OnUnits(m, capacity, us).err != 0 && OnUnits(m, capacity, us).sets == Stored(m.sets, us)
    decreases |us|
  {
    hide Update;
    if us != [] { MuxErrorSticks(OnUnit(m, capacity, us[0]), capacity, us[1..]); }
  }

  lemma {:induction false} OnUnitsExact(m: Muxer, capacity: nat, us: seq<bytes>)
    requires Ordinary(us) && m.err == 0 && |m.out| <= capacity
    ensures var r := OnUnits(m, capacity, us);
      && r.sets == Stored(m.sets, us)
      && (r.err == 0 <==> Storable(m.sets, us) && |m.out| + |PrefixedAll(us)| <= capacity)
      && (r.err == 0 ==> r.out == m.out + PrefixedAll(us))
    decreases |us|
  {
    hide Update, OnUnit, PrefixedAll, Be32;
    if us == [] {
      NothingPrefixed(m.out);
    } else {
      var n, more := OnUnit(m, capacity, us[0]), us[1..];
      OneExact(m, capacity, us[0]);
      PrefixedCons(us);
      if n.err != 0 {
        MuxErrorSticks(n, capacity, more);
      } else {
        OnUnitsExact(n, capacity, more);
        Regroup(m.out, Be32(|us[0]|) + us[0], PrefixedAll(more));
      }
    }
  }

  lemma {:induction false} OneExact(m: Muxer, capacity: nat, u: bytes)
    requires u != [] && |u| < POW32 && m.err == 0 && |m.out| <= capacity
    ensures var n := OnUnit(m, capacity, u);
      && n.sets == Update(m.sets, u).0
      && (n.err == 0 <==> Update(m.sets, u).1 >= 0 && |m.out| + 4 + |u| <= capacity)
      && (n.err == 0 ==> n.out == m.out + (Be32(|u|) + u))
  {
    hide Update;
  }

  lemma {:induction false} PrefixedCons(us: seq<bytes>)
    requires us != [] && Ordinary(us)
    ensures PrefixedAll(us) == (Be32(|us[0]|) + us[0]) + PrefixedAll(us[1..])
  {
    hide Be32;
  }

  lemma {:induction false} NothingPrefixed(out: bytes)
    ensures PrefixedAll([]) == [] && out + [] == out
  {
  }

  // Any input: the store takes in all units; the answer is the length of the units behind their lengths, exactly when
  // all parameter sets among them find room in the store and all units in the output, and otherwise 0.
  lemma {:induction false} ConvertsExactly(s: Sets, data: bytes, capacity: nat)
    requires !FramingOf(data).Undecided? && |data| < POW32
    ensures Ordinary(Units(data))
    ensures var c, us := ToMp4(s, data, capacity), Units(data);
      var fits := Storable(s, us) && |PrefixedAll(us)| <= capacity;
      && c.m.sets == Stored(s, us)
      && (fits ==> c.result == |PrefixedAll(us)| && c.m.out == PrefixedAll(us) && c.m.err == 0)
      && (!fits ==> c.result == 0 && c.m.err != 0)
  {
    UnitsOrdinary(data);
    OnUnitsExact(Muxer(s, [], 0, false, 0), capacity, Units(data));
    hide Units, FramingOf, Storable, Stored, PrefixedAll, OnUnits, Ordinary;
    assert [] + PrefixedAll(Units(data)) == PrefixedAll(Units(data));
  }

  // The caller is told of an update exactly when the store answered for some unit that it changed.
  lemma {:induction false} UpdateReported(m: Muxer, capacity: nat, us: seq<bytes>)
    requires Ordinary(us)
    ensures OnUnits(m, capacity, us).update <==> m.update || Changes(m.sets, us)
    decreases |us|
  {
    hide Update;
    if us != [] { UpdateReported(OnUnit(m, capacity, us[0]), capacity, us[1..]); }
  }

  predicate Changes(s: Sets, us: seq<bytes>)
    requires Ordinary(us)
    decreases |us|
  {
    us != [] && (Update(s, us[0]).1 == 1 || Changes(Update(s, us[0]).0, us[1..]))
  }

  lemma {:induction false} PiecesOrdinary(ps: seq<Piece>, tail: nat)
    requires AllCarriable(ps) && |Mixed(ps, tail)| < POW32
    ensures Ordinary(UnitsIn(ps)) && |PrefixedAll(UnitsIn(ps))| <= |Mixed(ps, tail)| + |ps|
    decreases |ps|
  {
    if ps != [] {
      MixedFront(ps, tail);
      CarriableRest(ps);
      UnitsCons(ps);
      PiecesOrdinary(ps[1..], tail);
      var u, more := ps[0].unit, UnitsIn(ps[1..]);
      assert UnitsIn(ps)[1..] == more && UnitsIn(ps)[0] == u;
      assert |PrefixedAll(UnitsIn(ps))| == 4 + |u| + |PrefixedAll(more)|;
      forall i | 0 <= i < |UnitsIn(ps)| ensures UnitsIn(ps)[i] != [] && |UnitsIn(ps)[i]| < POW32 {
        if i > 0 { assert UnitsIn(ps)[i] == more[i - 1]; }
      }
    }
  }

  // Units behind start codes of any length come out behind their lengths.
  lemma {:induction false} MixedConverts(s: Sets, ps: seq<Piece>, tail: nat, capacity: nat)
    requires ps != [] && AllCarriable(ps) && |Mixed(ps, tail)| < POW32
    requires ps[0].zeros > 0 || ReadsAsPrefixed(Mixed(ps, tail), 4).No?
    ensures Ordinary(UnitsIn(ps)) && !FramingOf(Mixed(ps, tail)).Undecided?
    ensures Storable(s, UnitsIn(ps)) && capacity >= |Mixed(ps, tail)| + |ps| ==>
      var c := ToMp4(s, Mixed(ps, tail), capacity);
      c.m.out == PrefixedAll(UnitsIn(ps)) && c.result == |c.m.out| && c.m.sets == Stored(s, UnitsIn(ps))
  {
    MixedFraming(ps, tail);
    MixedUnits(ps, tail);
    PiecesOrdinary(ps, tail);
    hide Mixed, UnitsIn, Storable, Stored, PrefixedAll, ToMp4, Ordinary, FramingOf, Units, ReadsAsPrefixed, AllCarriable;
    ConvertsExactly(s, Mixed(ps, tail), capacity);
  }

  // ---------------------------------------------------------------------------
  // Back, with lengths of any size

  function BeN(v: nat, size: nat): (b: bytes)
    ensures |b| == size
  {
    if size == 0 then [] else BeN(v / 256, size - 1) + [v % 256]
  }

  function Range(size: nat): nat { if size == 0 then 1 else 256 * Range(size - 1) }

  lemma {:induction false} LengthPrefix(s: bytes, t: bytes, size: nat)
    requires size <= |s| && size <= |t| && s[..size] == t[..size]
    ensures LengthAt(s, size) == LengthAt(t, size)
  {
    if size > 0 {
      assert s[..size - 1] == s[..size][..size - 1] && t[..size - 1] == t[..size][..size - 1];
      assert s[size - 1] == s[..size][size - 1] && t[size - 1] == t[..size][size - 1];
      LengthPrefix(s, t, size - 1);
    }
  }

  lemma {:induction false} LengthRead(v: nat, size: nat, rest: bytes)
    requires v < Range(size)
    ensures LengthAt(BeN(v, size) + rest, size) == v
  {
    if size > 0 {
      var s := BeN(v, size) + rest;
      LengthRead(v / 256, size - 1, [v % 256] + rest);
      assert s == BeN(v / 256, size - 1) + ([v % 256] + rest);
    }
  }

  // Units that a length of that size can announce; a length of 1 would stand for a start code.
  predicate Announced(us: seq<bytes>, size: nat) {
    forall i :: 0 <= i < |us| ==> (if size >= 3 then 1 else 0) < |us[i]| < Range(size)
  }

  function Behind(us: seq<bytes>, size: nat): bytes {
    if us == [] then [] else BeN(|us[0]|, size) + (us[0] + Behind(us[1..], size))
  }

  lemma {:induction false} WalkOne(s: Sets, size: nat, d: Demuxer, u: bytes, rest: bytes)
    requires 1 <= size <= 4 && Sound(d) && SetsInside(s, d.room, |d.buf|)
    requires (if size >= 3 then 1 else 0) < |u| < Range(size) && size + |u| + |rest| < 0x8000_0000
    ensures var data := BeN(|u|, size) + (u + rest);
      && (Stuck(size, data) <==> Stuck(size, rest))
      && (!Stuck(size, rest) ==> Walk(s, size, d, data) == Walk(s, size, OnPrefixed(s, d, u), rest))
  {
    hide OnPrefixed, SetsInside, LengthAt, BeN, Range;
    LengthRead(|u|, size, u + rest);
    Fetched(BeN(|u|, size), u, rest);
  }

  lemma {:induction false} Fetched(head: bytes, u: bytes, rest: bytes)
    ensures var data := head + (u + rest);
      data[|head|..|head| + |u|] == u && data[|head| + |u|..] == rest
  {
  }

  // The walk visits the units that were put behind lengths of any size from 1 to 4, and goes on with what follows them.
  lemma {:induction false} WalkBehind(s: Sets, size: nat, d: Demuxer, us: seq<bytes>, rest: bytes)
    requires 1 <= size <= 4 && Sound(d) && SetsInside(s, d.room, |d.buf|) && Announced(us, size)
    requires |Behind(us, size) + rest| < 0x8000_0000 && !Stuck(size, rest)
    ensures !Stuck(size, Behind(us, size) + rest)
    ensures Walk(s, size, d, Behind(us, size) + rest) == Walk(s, size, OnAllPrefixed(s, d, us), rest)
    decreases |us|
  {
    hide OnPrefixed, SetsInside, Walk, Stuck, BeN, Range;
    if us == [] {
      assert [] + rest == rest;
    } else {
      var u, more := us[0], us[1..];
      assert Behind(us, size) + rest == BeN(|u|, size) + (u + (Behind(more, size) + rest));
      WalkBehind(s, size, OnPrefixed(s, d, u), more, rest);
      WalkOne(s, size, d, u, Behind(more, size) + rest);
    }
  }

  // Nothing is left at the end; a length of zero, or one that leads past the end, fails the conversion.
  lemma {:induction false} WalkEnds(s: Sets, size: nat, d: Demuxer, rest: bytes)
    requires 1 <= size <= 4 && Sound(d) && SetsInside(s, d.room, |d.buf|) && |rest| < 0x8000_0000
    requires |rest| <= size || LengthAt(rest, size) == 0 || size + LengthAt(rest, size) > |rest|
    requires |rest| > size ==> !(LengthAt(rest, size) == 1 && size >= 3)
    ensures !Stuck(size, rest) && Walk(s, size, d, rest) == if |rest| <= size then Some(d) else None
  {
    hide SetsInside, LengthAt;
  }

  // Units behind start codes instead of lengths pass as well.
  lemma {:induction false} WalkFramed(s: Sets, d: Demuxer, us: seq<bytes>)
    requires Sound(d) && SetsInside(s, d.room, |d.buf|) && |Framed(us)| < 0x8000_0000
    requires us != [] && forall i :: 0 <= i < |us| ==> Carriable(us[i])
    ensures forall i :: 0 <= i < |us| ==> us[i] != []
    ensures !Stuck(4, Framed(us)) && Walk(s, 4, d, Framed(us)) == Some(OnAllPrefixed(s, d, us))
  {
    var data := Framed(us);
    UnitsFramed(us);
    FramedFront(us);
    ThreeBytes(data);
    assert data[0] == data[..4][0] && data[1] == data[..4][1] && data[2] == data[..4][2] && data[3] == data[..4][3];
    hide OnPrefixed, OnAllPrefixed, SetsInside, LengthAt, Framed, FramingOf, Units;
    assert LengthAt(data, 4) == 1;
    UnitsOrdinary(data);
  }
}
