/** The H.265 parameter-set store in its arena: one list of typed units, replaced, added and cleared. */
module HevcStore {
  import opened Bytes
  import opened Arena
  import opened AvcStore
  import opened HevcIds
  import opened HevcRecord
  import opened Options
  import E = Emulation

  const ROOM := 4096

  datatype Outcome = Outcome(units: seq<Unit>, result: int)

  // Put other bytes in place of unit `i`.
  function Replaced(us: seq<Unit>, i: nat, x: bytes, off: nat): Outcome
    requires i < |us|
  {
    if x == us[i].data then Outcome(us, 0)
    else if |x| > |us[i].data| && off + (|x| - |us[i].data|) > ROOM then Outcome(us, -1)
    else Outcome(us[i := us[i].(data := x)], 1)
  }

  function Added(us: seq<Unit>, kind: nat, x: bytes, off: nat): Outcome {
    if |us| >= MAX_UNITS || off + |x| > ROOM then Outcome(us, -1) else Outcome(us + [Unit(kind, 1, x)], 1)
  }

  // What two locals hold before an id is stored in them: that of the set wanted, and that of the set looked at.
  datatype Unset = Unset(mine: byte, other: byte)

  function Or(x: Option<byte>, y: byte): byte { if x.Some? then x.value else y }

  // The first unit of that type with that key. Where decoding gives up, the second id is that of the unit before.
  function FindUnit(us: seq<Unit>, kind: nat, own: byte, mine: byte, other: byte, room: nat): (i: nat)
    requires IsSet(kind)
    ensures i <= |us|
  {
    if us == [] then 0
    else if us[0].kind != kind then 1 + FindUnit(us[1..], kind, own, mine, other, room)
    else
      var key := KeyIn(kind, us[0].data, room);
      var o := Or(key.other, other);
      if key.own == own && o == mine then 0 else 1 + FindUnit(us[1..], kind, own, mine, o, room)
  }

  function Shortest(kind: nat): nat { if kind == SPS then 15 else 3 }

  function SetCopied(us: seq<Unit>, kind: nat, x: bytes, off: nat, unset: Unset): Outcome
    requires IsSet(kind) && off <= ROOM
  {
    if |x| < Shortest(kind) then Outcome(us, -1)
    else
      var key := KeyIn(kind, x, ROOM - off);
      var i := FindUnit(us, kind, key.own, Or(key.other, unset.mine), unset.other, ROOM - off);
      if i < |us| then Replaced(us, i, x, off) else Added(us, kind, x, off)
  }

  predicate IsSei(u: Unit) { u.kind == PREFIX_SEI || u.kind == SUFFIX_SEI }

  function WithoutSei(us: seq<Unit>): seq<Unit> {
    if us == [] then [] else (if IsSei(us[0]) then [] else [us[0]]) + WithoutSei(us[1..])
  }

  lemma {:induction false} WithoutSeiTotal(us: seq<Unit>)
    ensures UnitsTotal(WithoutSei(us)) <= UnitsTotal(us)
  {
    if us != [] {
      WithoutSeiTotal(us[1..]);
      SeiStep(us);
      assert !IsSei(us[0]) ==> WithoutSei(us)[1..] == WithoutSei(us[1..]);
    }
  }

  // A unit of the stream: a video parameter set first clears all SEI units. The units take up as many bytes of the
  // arena as they have.
  function Updated(us: seq<Unit>, x: bytes, unset: Unset): Outcome
    requires x != [] && UnitsTotal(us) <= ROOM
  {
    WithoutSeiTotal(us);
    var kind := x[0] as nat / 2 % 64;
    if kind == VPS then SetCopied(WithoutSei(us), VPS, x, UnitsTotal(WithoutSei(us)), unset)
    else if kind == SPS || kind == PPS then SetCopied(us, kind, x, UnitsTotal(us), unset)
    else Outcome(us, 0)
  }

  datatype Tag = Tag(kind: nat, complete: nat)

  function Zip(tags: seq<Tag>, parts: seq<bytes>): (us: seq<Unit>)
    requires |tags| == |parts|
    ensures |us| == |tags|
  {
    seq(|tags|, i requires 0 <= i < |tags| => Unit(tags[i].kind, tags[i].complete, parts[i]))
  }

  // The arena is followed by at least one byte of padding, into which decoding an id can write.
  class Store {
    const data: array<byte>
    var tags: seq<Tag>
    var slices: seq<Slice>
    var off: nat

    ghost predicate Layout()
      reads this
    {
      data.Length == ROOM + 1 && off <= ROOM && |tags| == |slices| <= MAX_UNITS && forall i :: 0 <= i < |slices| ==> slices[i].End() <= ROOM
    }

    // All units together tile the front of the arena exactly.
    ghost predicate Valid()
      reads this
    {
      Layout() && Tiles(slices, -1, off, true)
    }

    ghost function Units(): (us: seq<Unit>)
      reads this, data
      requires Layout()
      ensures |us| == |slices|
    {
      Zip(tags, Parts())
    }

    constructor ()
      ensures Valid() && Units() == [] && off == 0 && fresh(data)
    {
      data := new byte[ROOM + 1];
      tags, slices, off := [], [], 0;
    }

    // Squeeze the `n` bytes at `p` out of the arena in use, and move the units behind them.
    method Remove(p: nat, n: nat)
      requires Layout() && p + n <= off
      requires forall j :: 0 <= j < |slices| && slices[j].start > p ==> slices[j].start >= n
      modifies data, this`slices
      ensures Squeezed(old(data[..]), data[..], p, n, off) && slices == Shifted(old(slices), p, n)
    {
      hide Squeezed;
      SqueezeOut(data, p, n, off);
      ghost var before, squeezed := slices, data[..];
      var i := 0;
      while i < |slices|
        invariant i <= |slices| == |before| && data[..] == squeezed
        invariant forall j :: 0 <= j < |slices| ==> slices[j] == if j < i then Shifted(before, p, n)[j] else before[j]
      {
        if slices[i].start > p { slices := slices[i := Slice(slices[i].start - n, slices[i].len)]; }
        i := i + 1;
      }
    }

    ghost function Parts(): seq<bytes>
      reads this, data
      requires Layout()
    {
      Contents(data[..], slices)
    }

    // Take unit `i` out of the arena; its own slice is left as it was.
    method CutOut(i: nat)
      requires Valid() && i < |slices|
      modifies this`off, this`slices, data
      ensures Layout() && off == old(off) - old(slices[i].len) && Tiles(slices, i, off, true) && slices[i] == old(slices[i])
      ensures slices == Shifted(old(slices), slices[i].start, slices[i].len)
      ensures Squeezed(old(data[..]), data[..], slices[i].start, slices[i].len, old(off))
      ensures forall j :: 0 <= j < |slices| && j != i ==> Content(data[..], slices[j]) == old(Parts())[j]
    {
      hide Tiles, Squeezed;
      ghost var ss, data0 := slices, data[..];
      TilesInside(ss, -1, off, true);
      RemoveTiles(ss, i, off, true);
      Remove(slices[i].start, slices[i].len);
      RemoveKeepsContent(data0, data[..], ss, i, off, true);
      off := off - slices[i].len;
    }

    // Replace unit `i`, whose new bytes go to the end of the arena.
    method Replace(i: nat, x: bytes)
      requires Valid() && i < |slices| && x != [] && off - slices[i].len + |x| <= ROOM
      modifies this`off, this`slices, data
      ensures Valid() && off == old(off) - old(slices[i].len) + |x|
      ensures Parts() == old(Parts())[i := x] && |slices| == old(|slices|)
    {
      hide Tiles, Squeezed, Arena.Copied;
      ghost var ss, data0 := slices, data[..];
      CutOut(i);
      ghost var data1 := data[..];
      CopyIn(data, off, x);
      slices := slices[i := Slice(off, |x|)];
      ReplaceTiles(data0, data1, data[..], ss, i, old(off), x, true);
      off := off + |x|;
    }

    lemma {:induction false} UnitsAreParts()
      requires Layout()
      ensures forall i :: 0 <= i < |slices| ==>
        Units()[i] == Unit(tags[i].kind, tags[i].complete, Parts()[i]) && |Parts()[i]| == slices[i].len
    {
    }

    // The unit is left alone when nothing changes or the new bytes do not fit.
    method Update(i: nat, x: bytes) returns (result: int)
      requires Valid() && i < |slices| && x != []
      modifies this`off, this`slices, data
      ensures Valid() && Outcome(Units(), result) == Replaced(old(Units()), i, x, old(off))
    {
      hide Tiles;
      UnitsAreParts();
      ghost var us := Units();
      TilesInside(slices, -1, off, true);
      if x == data[slices[i].start..slices[i].End()] { return 0; }
      if |x| > slices[i].len && off + (|x| - slices[i].len) > ROOM { return -1; }
      Replace(i, x);
      UnitsAreParts();
      assert Units() == us[i := us[i].(data := x)];
      return 1;
    }

    method Append(kind: nat, x: bytes)
      requires Valid() && x != [] && |slices| < MAX_UNITS && off + |x| <= ROOM
      modifies this, data
      ensures Valid() && off == old(off) + |x| && |slices| == old(|slices|) + 1
      ensures Parts() == old(Parts()) + [x] && tags == old(tags) + [Tag(kind, 1)]
    {
      hide Tiles, Arena.Copied;
      ghost var ss, data0, parts := slices, data[..], Parts();
      TilesInside(ss, -1, off, true);
      CopyIn(data, off, x);
      AppendTiles(data0, data[..], ss, |ss|, off, x, true);
      assert ss[..|ss|] == ss && ss[|ss|..] == [];
      assert ss[..|ss|] + [Slice(off, |x|)] + ss[|ss|..] == ss + [Slice(off, |x|)];
      tags, slices := tags + [Tag(kind, 1)], slices + [Slice(off, |x|)];
      off := off + |x|;
      TilesInside(slices, -1, off, true);
      assert parts + [x] + Contents(data0, []) == parts + [x];
    }

    method Add(kind: nat, x: bytes) returns (result: int)
      requires Valid() && x != []
      modifies this, data
      ensures Valid() && Outcome(Units(), result) == Added(old(Units()), kind, x, old(off))
    {
      hide Tiles;
      if |slices| >= MAX_UNITS || off + |x| > ROOM { return -1; }
      ghost var us := Units();
      UnitsAreParts();
      Append(kind, x);
      UnitsAreParts();
      assert Units() == us + [Unit(kind, 1, x)];
      return 1;
    }

    // Decode a set into the part of the arena that is not in use, and read its key there.
    method DecodeKey(kind: nat, h: bytes) returns (key: Key)
      requires Valid() && IsSet(kind)
      modifies data
      ensures Valid() && Units() == old(Units()) && key == KeyIn(kind, h, ROOM - off)
    {
      hide Tiles, KeyOf, E.Overruns, E.Stripped, E.Sodb;
      TilesInside(slices, -1, off, true);
      ghost var before := data[..];
      var j, end := E.RbspDecode(h, data, off, ROOM - off);
      FrontKept(before, data[..]);
      key := ReadKey(kind, data[off..off + j]);
    }

    lemma {:induction false} FrontKept(before: bytes, after: bytes)
      requires Layout() && |before| == |after| == data.Length && before[..off] == after[..off]
      requires forall i :: 0 <= i < |slices| ==> slices[i].End() <= off
      ensures Contents(before, slices) == Contents(after, slices)
    {
      forall i | 0 <= i < |slices| ensures Content(before, slices[i]) == Content(after, slices[i]) {
        FrontSlice(before, off, slices[i].start, slices[i].End());
        FrontSlice(after, off, slices[i].start, slices[i].End());
      }
    }

    method Find(kind: nat, own: byte, mine: byte, unset: byte) returns (i: nat)
      requires Valid() && IsSet(kind)
      modifies data
      ensures Valid() && Units() == old(Units()) && i == FindUnit(Units(), kind, own, mine, unset, ROOM - off)
    {
      hide Tiles, KeyIn, FindUnit, Zip, Contents, Or;
      ghost var us, room := Units(), ROOM - off;
      var other := unset;
      i := 0;
      assert us[0..] == us;
      FindNothing(kind, own, mine, other, room);
      while i < |slices|
        invariant Valid() && Units() == us && i <= |slices|
        invariant FindUnit(us, kind, own, mine, unset, room) == i + FindUnit(us[i..], kind, own, mine, other, room)
      {
        FindStep(us, i, kind, own, mine, other, room);
        UnitAt(i);
        if tags[i].kind == kind {
          var key := DecodeKey(kind, data[slices[i].start..slices[i].End()]);
          other := Or(key.other, other);
          if key.own == own && other == mine { return; }
        }
        i := i + 1;
      }
      assert us[i..] == [];
    }

    lemma {:induction false} UnitAt(i: nat)
      requires Layout() && i < |slices|
      ensures Units()[i].kind == tags[i].kind && Units()[i].data == data[slices[i].start..slices[i].End()]
    {
    }

    // A parameter set replaces the one with its ids, or is added.
    method CopySet(kind: nat, x: bytes, unset: Unset) returns (result: int)
      requires Valid() && IsSet(kind)
      modifies this, data
      ensures Valid() && Outcome(Units(), result) == SetCopied(old(Units()), kind, x, old(off), unset)
    {
      hide Tiles, Zip, Contents, Replaced, Added, FindUnit, KeyIn;
      if |x| < Shortest(kind) { return -1; }
      var key := DecodeKey(kind, x);
      var i := Find(kind, key.own, Or(key.other, unset.mine), unset.other);
      if i < |slices| { result := Update(i, x); } else { result := Add(kind, x); }
    }

    // Drop unit `i` from the list and the arena.
    method Delete(i: nat)
      requires Valid() && i < |slices|
      modifies this, data
      ensures Valid() && Parts() == old(Parts())[..i] + old(Parts())[i + 1..] && tags == old(tags)[..i] + old(tags)[i + 1..]
    {
      hide Tiles, Squeezed, Shifted;
      ghost var parts := Parts();
      CutOut(i);
      DropTiles(slices, i, off, true);
      ghost var cut := slices;
      tags, slices := tags[..i] + tags[i + 1..], slices[..i] + slices[i + 1..];
      forall j | 0 <= j < |slices| ensures Parts()[j] == parts[if j < i then j else j + 1] {
        assert slices[j] == cut[if j < i then j else j + 1];
      }
      assert Parts() == parts[..i] + parts[i + 1..];
    }

    lemma {:induction false} KindAt(i: nat)
      requires Valid() && i < |slices|
      ensures |tags| == |slices| && Units()[i].kind == tags[i].kind
    {
    }

    lemma {:induction false} OffIsTotal()
      requires Valid()
      ensures off == UnitsTotal(Units()) <= ROOM
    {
      TilesTotal(slices, off);
      TotalIsLengths(Units(), slices);
    }

    method DeleteUnit(i: nat)
      requires Valid() && i < |slices|
      modifies this, data
      ensures Valid() && Units() == old(Units())[..i] + old(Units())[i + 1..]
    {
      hide Tiles, Contents;
      ghost var us := Units();
      Delete(i);
      assert Units() == us[..i] + us[i + 1..];
    }

    method ClearSei()
      requires Valid()
      modifies this, data
      ensures Valid() && Units() == WithoutSei(old(Units()))
    {
      hide Tiles, WithoutSei, Zip, Contents;
      var i := 0;
      ghost var us, done: seq<Unit>, rest := Units(), [], Units();
      NoSei(us, done);
      while i < |slices|
        invariant Valid() && i == |done| && Units() == done + rest && WithoutSei(us) == done + WithoutSei(rest)
        decreases |rest|
      {
        KindAt(i);
        SeiStep(rest);
        Cons(done, rest, WithoutSei(rest[1..]));
        if tags[i].kind == PREFIX_SEI || tags[i].kind == SUFFIX_SEI {
          DeleteUnit(i);
        } else {
          done := done + [rest[0]];
          i := i + 1;
        }
        rest := rest[1..];
      }
      NoSei(us, done);
      assert rest == [] && Units() == done;
    }
  }

  method UpdateStore(store: Store, x: bytes, unset: Unset) returns (result: int)
    requires store.Valid() && x != []
    modifies store, store.data
    ensures store.Valid() && old(UnitsTotal(store.Units())) <= ROOM
    ensures Outcome(store.Units(), result) == Updated(old(store.Units()), x, unset)
  {
    store.OffIsTotal();
    hide Tiles, Contents, Zip, SetCopied, WithoutSei, UnitsTotal;
    var kind := x[0] as nat / 2 % 64;
    if kind == VPS {
      store.ClearSei();
      store.OffIsTotal();
      result := store.CopySet(VPS, x, unset);
    } else if kind == SPS {
      result := store.CopySet(SPS, x, unset);
    } else if kind == PPS {
      result := store.CopySet(PPS, x, unset);
    } else {
      result := 0;
    }
  }

  lemma {:induction false} FrontSlice(a: bytes, n: nat, from: nat, to: nat)
    requires from <= to <= n <= |a|
    ensures a[..n][from..to] == a[from..to]
  {
  }

  lemma {:induction false} FindNothing(kind: nat, own: byte, mine: byte, other: byte, room: nat)
    requires IsSet(kind)
    ensures FindUnit([], kind, own, mine, other, room) == 0
  {
  }

  lemma {:induction false} FindStep(us: seq<Unit>, i: nat, kind: nat, own: byte, mine: byte, other: byte, room: nat)
    requires IsSet(kind) && i < |us|
    ensures FindUnit(us[i..], kind, own, mine, other, room) ==
      if us[i].kind != kind then 1 + FindUnit(us[i + 1..], kind, own, mine, other, room)
      else
        var key := KeyIn(kind, us[i].data, room);
        if key.own == own && Or(key.other, other) == mine then 0
        else 1 + FindUnit(us[i + 1..], kind, own, mine, Or(key.other, other), room)
  {
    hide KeyIn;
    assert us[i..][0] == us[i] && us[i..][1..] == us[i + 1..];
  }

  lemma {:induction false} TotalIsLengths(us: seq<Unit>, ss: seq<Slice>)
    requires |us| == |ss| && forall i :: 0 <= i < |ss| ==> |us[i].data| == ss[i].len
    ensures UnitsTotal(us) == Lengths(ss)
    decreases |us|
  {
    if us != [] { TotalIsLengths(us[1..], ss[1..]); }
  }

  lemma {:induction false} Cons(done: seq<Unit>, rest: seq<Unit>, more: seq<Unit>)
    requires rest != []
    ensures done + ([rest[0]] + more) == done + [rest[0]] + more && done + rest == done + [rest[0]] + rest[1..]
    ensures (done + rest)[..|done|] == done && (done + rest)[|done| + 1..] == rest[1..] && (done + rest)[|done|] == rest[0]
  {
  }

  lemma {:induction false} SeiStep(us: seq<Unit>)
    requires us != []
    ensures WithoutSei(us) == if IsSei(us[0]) then WithoutSei(us[1..]) else [us[0]] + WithoutSei(us[1..])
  {
    assert [] + WithoutSei(us[1..]) == WithoutSei(us[1..]);
  }

  lemma {:induction false} NoSei(us: seq<Unit>, done: seq<Unit>)
    ensures [] + WithoutSei(us) == WithoutSei(us) && [] + us == us && done + WithoutSei([]) == done && done + [] == done
  {
  }

  // ---------------------------------------------------------------------------
  // What the operations mean

  // No other unit changes, whatever the result; only an answer of 1 changes anything.
  lemma {:induction false} ReplacedMeaning(us: seq<Unit>, i: nat, x: bytes, off: nat)
    requires i < |us|
    ensures var r := Replaced(us, i, x, off);
      && |r.units| == |us| && (forall j :: 0 <= j < |us| && j != i ==> r.units[j] == us[j])
      && (r.result == 1 <==> r.units != us) && (r.result == 0 <==> x == us[i].data) && (r.result == 1 ==> r.units[i].data == x)
  {
    assert us[i := us[i].(data := x)][i].data == x;
  }
}
