/** The H.265 store as a map from ids to sets. */
module HevcMaps {
  import opened Bytes
  import opened HevcIds
  import opened HevcRecord
  import opened HevcStore
  import opened Options
  import E = Emulation

  // With this much room, ids are read in full.
  const DECODING := 257

  type SetId = (nat, Key)

  function KeyOfSet(kind: nat, x: bytes): Key
    requires IsSet(kind)
  {
    KeyIn(kind, x, DECODING)
  }

  // Decoding does not give up before all ids are read.
  predicate Named(kind: nat, x: bytes)
    requires IsSet(kind)
  {
    KeyOfSet(kind, x).other.Some?
  }

  function IdOf(u: Unit): SetId
    requires IsSet(u.kind)
  {
    (u.kind, KeyOfSet(u.kind, u.data))
  }

  function SetMap(us: seq<Unit>): map<SetId, bytes> {
    if us == [] then map[]
    else if IsSet(us[0].kind) then SetMap(us[1..])[IdOf(us[0]) := us[0].data]
    else SetMap(us[1..])
  }

  // All sets have their ids, and no two the same.
  predicate Keyed(us: seq<Unit>) {
    us == [] ||
    (Keyed(us[1..]) && (IsSet(us[0].kind) ==> Named(us[0].kind, us[0].data) && IdOf(us[0]) !in SetMap(us[1..])))
  }

  // Without a byte string long enough to read them from, there are no ids.
  lemma {:induction false} NamedIff(kind: nat, x: bytes)
    requires IsSet(kind)
    ensures Named(kind, x) <==> kind == VPS || |E.Decoded(x, DECODING)| >= if kind == SPS then 15 else 3
  {
    hide E.Stripped;
  }

  // ---------------------------------------------------------------------------
  // Finding, replacing and adding

  lemma {:induction false} FindMap(us: seq<Unit>, kind: nat, own: byte, mine: byte, other: byte, room: nat)
    requires Keyed(us) && IsSet(kind) && room >= DECODING
    ensures var i, k := FindUnit(us, kind, own, mine, other, room), (kind, Key(own, Some(mine)));
      && (k in SetMap(us) <==> i < |us|)
      && (i < |us| ==> us[i].kind == kind && IdOf(us[i]) == k && SetMap(us)[k] == us[i].data)
    decreases |us|
  {
    hide KeyIn;
    if us != [] {
      if us[0].kind == kind {
        KeyEnough(kind, us[0].data, room);
        FindMap(us[1..], kind, own, mine, Or(KeyIn(kind, us[0].data, room).other, other), room);
      } else {
        FindMap(us[1..], kind, own, mine, other, room);
      }
    }
  }

  lemma {:induction false} ReplaceMap(us: seq<Unit>, i: nat, x: bytes)
    requires Keyed(us) && i < |us| && IsSet(us[i].kind) && KeyOfSet(us[i].kind, x) == IdOf(us[i]).1
    ensures var v := us[i := us[i].(data := x)];
      IdOf(us[i]) in SetMap(us) && Keyed(v) && SetMap(v) == SetMap(us)[IdOf(us[i]) := x]
    decreases |us|
  {
    hide KeyOfSet;
    var v := us[i := us[i].(data := x)];
    if i == 0 {
      assert v[1..] == us[1..];
    } else {
      ReplaceMap(us[1..], i - 1, x);
      assert v[1..] == us[1..][i - 1 := us[i].(data := x)];
    }
  }

  lemma {:induction false} AddMap(us: seq<Unit>, u: Unit)
    requires Keyed(us) && IsSet(u.kind) && Named(u.kind, u.data) && IdOf(u) !in SetMap(us)
    ensures Keyed(us + [u]) && SetMap(us + [u]) == SetMap(us)[IdOf(u) := u.data]
    decreases |us|
  {
    hide KeyOfSet;
    if us == [] {
      assert [] + [u] == [u] && [u][1..] == [];
    } else {
      AddMap(us[1..], u);
      assert (us + [u])[1..] == us[1..] + [u];
    }
  }

  lemma {:induction false} WithoutSeiMap(us: seq<Unit>)
    requires Keyed(us)
    ensures Keyed(WithoutSei(us)) && SetMap(WithoutSei(us)) == SetMap(us)
    decreases |us|
  {
    hide KeyOfSet;
    if us != [] {
      WithoutSeiMap(us[1..]);
      SeiStep(us);
      var rest := WithoutSei(us[1..]);
      if !IsSei(us[0]) { assert ([us[0]] + rest)[1..] == rest; }
    }
  }

  // ---------------------------------------------------------------------------
  // Room

  lemma {:induction false} TotalReplaced(us: seq<Unit>, i: nat, x: bytes)
    requires i < |us|
    ensures |us[i].data| <= UnitsTotal(us)
    ensures UnitsTotal(us[i := us[i].(data := x)]) == UnitsTotal(us) - |us[i].data| + |x|
    decreases |us|
  {
    var v := us[i := us[i].(data := x)];
    if i == 0 {
      assert v[1..] == us[1..];
    } else {
      TotalReplaced(us[1..], i - 1, x);
      assert v[1..] == us[1..][i - 1 := us[i].(data := x)];
    }
  }

  lemma {:induction false} TotalAdded(us: seq<Unit>, u: Unit)
    ensures UnitsTotal(us + [u]) == UnitsTotal(us) + |u.data|
    decreases |us|
  {
    if us == [] {
      assert [] + [u] == [u] && [u][1..] == [];
    } else {
      TotalAdded(us[1..], u);
      assert (us + [u])[1..] == us[1..] + [u];
    }
  }

  lemma {:induction false} SetCopiedFits(us: seq<Unit>, kind: nat, x: bytes, unset: Unset)
    requires IsSet(kind) && UnitsTotal(us) <= ROOM
    ensures UnitsTotal(SetCopied(us, kind, x, UnitsTotal(us), unset).units) <= ROOM
  {
    hide KeyIn, FindUnit, UnitsTotal;
    if |x| >= Shortest(kind) {
      var room := ROOM - UnitsTotal(us);
      var key := KeyIn(kind, x, room);
      var i := FindUnit(us, kind, key.own, Or(key.other, unset.mine), unset.other, room);
      if i < |us| { TotalReplaced(us, i, x); } else { TotalAdded(us, Unit(kind, 1, x)); }
    }
  }

  // ---------------------------------------------------------------------------
  // The refinement

  // Copying a set answers 1 exactly when the map changes, and then only at its ids; 0 means it is there already, and -1
  // that there is no room for it.
  lemma {:induction false} CopyMeaning(us: seq<Unit>, kind: nat, x: bytes, off: nat, unset: Unset)
    requires Keyed(us) && IsSet(kind) && |x| >= Shortest(kind) && Named(kind, x) && off + DECODING <= ROOM
    ensures var r, m, k := SetCopied(us, kind, x, off, unset), SetMap(us), (kind, KeyOfSet(kind, x));
      && Keyed(r.units) && (r.result == 1 || r.result == 0 || r.result == -1)
      && (r.result == 1 ==> SetMap(r.units) == m[k := x] != m)
      && (r.result != 1 ==> r.units == us)
      && (r.result == 0 <==> k in m && m[k] == x)
      && (r.result == -1 <==>
          if k in m then |x| > |m[k]| && off - |m[k]| + |x| > ROOM else |us| >= MAX_UNITS || off + |x| > ROOM)
  {
    hide KeyIn, FindUnit, SetMap, Keyed;
    KeyEnough(kind, x, ROOM - off);
    var key := KeyOfSet(kind, x);
    var i := FindUnit(us, kind, key.own, Or(key.other, unset.mine), unset.other, ROOM - off);
    FindMap(us, kind, key.own, Or(key.other, unset.mine), unset.other, ROOM - off);
    if i < |us| {
      ReplaceMap(us, i, x);
    } else {
      AddMap(us, Unit(kind, 1, x));
    }
  }

  // What an update needs: room to read ids in, and ids to read.
  predicate Readable(us: seq<Unit>, x: bytes)
    requires x != []
  {
    var kind := x[0] as nat / 2 % 64;
    UnitsTotal(us) + DECODING <= ROOM && (IsSet(kind) && |x| >= Shortest(kind) ==> Named(kind, x))
  }

  predicate Holds(m: map<SetId, bytes>, kind: nat, x: bytes)
    requires IsSet(kind)
  {
    |x| >= Shortest(kind) && (kind, KeyOfSet(kind, x)) in m && m[(kind, KeyOfSet(kind, x))] == x
  }

  // The store refines a map from ids to sets: an update answers 1 exactly when the map changes, and then only at the ids
  // of the unit.
  lemma {:induction false} UpdateRefinesMap(us: seq<Unit>, x: bytes, unset: Unset)
    requires x != [] && Keyed(us) && Readable(us, x)
    ensures var kind := x[0] as nat / 2 % 64;
      var r, m := Updated(us, x, unset), SetMap(us);
      && Keyed(r.units) && UnitsTotal(r.units) <= ROOM
      && (r.result == 1 <==> SetMap(r.units) != m)
      && (r.result == 1 ==> IsSet(kind) && SetMap(r.units) == m[(kind, KeyOfSet(kind, x)) := x])
      && (r.result == 0 <==> (!IsSet(kind) || Holds(m, kind, x)))
      && (kind != VPS && r.result != 1 ==> r.units == us)
  {
    var kind := x[0] as nat / 2 % 64;
    WithoutSeiTotal(us);
    WithoutSeiMap(us);
    hide KeyOfSet, Named, SetMap, Keyed, WithoutSei, UnitsTotal, SetCopied;
    if IsSet(kind) {
      var vs := if kind == VPS then WithoutSei(us) else us;
      SetCopiedFits(vs, kind, x, unset);
      if |x| >= Shortest(kind) {
        CopyMeaning(vs, kind, x, UnitsTotal(vs), unset);
      } else {
        TooShort(vs, kind, x, UnitsTotal(vs), unset);
      }
    }
  }

  lemma {:induction false} TooShort(us: seq<Unit>, kind: nat, x: bytes, off: nat, unset: Unset)
    requires IsSet(kind) && |x| < Shortest(kind) && off <= ROOM
    ensures SetCopied(us, kind, x, off, unset) == Outcome(us, -1)
  {
  }

  // Whatever the answer, the units fit the arena.
  lemma {:induction false} UpdatedFits(us: seq<Unit>, x: bytes, unset: Unset)
    requires x != [] && UnitsTotal(us) <= ROOM
    ensures UnitsTotal(Updated(us, x, unset).units) <= ROOM
  {
    WithoutSeiTotal(us);
    hide WithoutSei, UnitsTotal, SetCopied;
    var kind := x[0] as nat / 2 % 64;
    if IsSet(kind) { SetCopiedFits(if kind == VPS then WithoutSei(us) else us, kind, x, unset); }
  }

  predicate AllUnits(xs: seq<bytes>) { forall i :: 0 <= i < |xs| ==> xs[i] != [] }

  // The units held after the updates `xs` of an empty store.
  function Run(xs: seq<bytes>, unset: Unset): (us: seq<Unit>)
    requires AllUnits(xs)
    ensures UnitsTotal(us) <= ROOM
  {
    if xs == [] then []
    else
      UpdatedFits(Run(xs[..|xs| - 1], unset), xs[|xs| - 1], unset);
      Updated(Run(xs[..|xs| - 1], unset), xs[|xs| - 1], unset).units
  }

  // From the empty store on, sets stay told apart by their ids as long as these can be read.
  lemma {:induction false} RunKeyed(xs: seq<bytes>, unset: Unset)
    requires AllUnits(xs) && forall i :: 0 <= i < |xs| ==> Readable(Run(xs[..i], unset), xs[i])
    ensures Keyed(Run(xs, unset))
    decreases |xs|
  {
    hide Readable, Updated;
    if xs != [] {
      var init := xs[..|xs| - 1];
      forall i | 0 <= i < |init| ensures Readable(Run(init[..i], unset), init[i]) {
        assert init[..i] == xs[..i] && init[i] == xs[i];
      }
      RunKeyed(init, unset);
      UpdateRefinesMap(Run(init, unset), xs[|xs| - 1], unset);
    }
  }

  // A set that was copied is found under its ids next time, and copying it again changes nothing.
  lemma {:induction false} CopiedTwice(us: seq<Unit>, kind: nat, x: bytes, off: nat, off2: nat, unset: Unset, unset2: Unset)
    requires Keyed(us) && IsSet(kind) && |x| >= Shortest(kind) && Named(kind, x)
    requires off + DECODING <= ROOM && off2 + DECODING <= ROOM && SetCopied(us, kind, x, off, unset).result != -1
    ensures var r := SetCopied(us, kind, x, off, unset); SetCopied(r.units, kind, x, off2, unset2) == Outcome(r.units, 0)
  {
    hide KeyOfSet, Named, SetMap, Keyed, SetCopied;
    CopyMeaning(us, kind, x, off, unset);
    CopyMeaning(SetCopied(us, kind, x, off, unset).units, kind, x, off2, unset2);
  }

  // ---------------------------------------------------------------------------
  // Without that room

  lemma {:induction false} DecodedBound(h: bytes, len: nat)
    ensures |E.Decoded(h, len)| <= len + 1
  {
    E.NoneAtStart(h, len);
    E.EagerMeaning(h, 0, 0, len);
    hide E.Overruns, E.NoneBefore, E.Boundary, E.Stripped;
  }

  // With less than 17 bytes left, every video parameter set counts as the first one held.
  lemma {:induction false} FirstVps(us: seq<Unit>, x: bytes, unset: Unset, i: nat)
    requires i < |us| && us[i].kind == VPS && forall j :: 0 <= j < i ==> us[j].kind != VPS
    requires |x| >= 3 && ROOM - 17 < UnitsTotal(us) <= ROOM
    ensures SetCopied(us, VPS, x, UnitsTotal(us), unset) == Replaced(us, i, x, UnitsTotal(us))
  {
    var room := ROOM - UnitsTotal(us);
    hide UnitsTotal, KeyIn, FindUnit, Replaced;
    NoVpsId(x, room);
    NoVpsId(us[i].data, room);
    FirstOfKind(us, 0, unset.other, room, i);
  }

  lemma {:induction false} NoVpsId(h: bytes, room: nat)
    requires room < 17
    ensures KeyIn(VPS, h, room) == Key(0xFF, Some(0))
  {
    DecodedBound(h, room);
    hide E.Decoded;
  }

  lemma {:induction false} FirstOfKind(us: seq<Unit>, mine: byte, other: byte, room: nat, i: nat)
    requires i < |us| && us[i].kind == VPS && forall j :: 0 <= j < i ==> us[j].kind != VPS
    requires KeyIn(VPS, us[i].data, room) == Key(0xFF, Some(mine))
    ensures FindUnit(us, VPS, 0xFF, mine, other, room) == i
    decreases i
  {
    hide KeyIn;
    if i > 0 { FirstOfKind(us[1..], mine, other, room, i - 1); }
  }

  // Bytes without a zero are decoded as they are.
  lemma {:induction false} PlainEnd(h: bytes, i: nat, len: nat)
    requires i <= |h| <= len && |h| <= 256 && forall j :: 0 <= j < |h| ==> h[j] != 0
    ensures E.EagerEnd(h, i, i, len) == |h|
    decreases |h| - i
  {
    if i < |h| { PlainEnd(h, i + 1, len); }
  }

  lemma {:induction false} PlainStripped(h: bytes, n: nat)
    requires n <= |h| && forall j :: 0 <= j < |h| ==> h[j] != 0
    ensures E.Stripped(h, n) == h[..n]
    decreases n
  {
    if n > 0 { PlainStripped(h, n - 1); }
  }

  function Ones(n: nat): bytes { seq(n, _ => 1) }

  // Video parameter sets with id 1 and 2, and a picture parameter set.
  function SomeVps(id: nat): bytes
    requires 0 < id < 16
  {
    [0x40, 0x01, 16 * id + 1] + Ones(21)
  }

  function LongPps(): bytes { [0x44, 0x01] + Ones(4058) }

  lemma {:induction false} SomeVpsKey(id: nat)
    requires 0 < id < 16
    ensures KeyOfSet(VPS, SomeVps(id)) == Key(id, Some(0))
  {
    var x := SomeVps(id);
    PlainEnd(x, 0, DECODING);
    PlainStripped(x, |x|);
    hide E.Stripped, E.EagerEnd;
    assert x[..|x|] == x && x[2] == 16 * id + 1;
  }

  lemma {:induction false} RunOn(xs: seq<bytes>, x: bytes, unset: Unset)
    requires AllUnits(xs) && x != []
    ensures AllUnits(xs + [x]) && Run(xs + [x], unset) == Updated(Run(xs, unset), x, unset).units
  {
    hide Updated;
    assert (xs + [x])[..|xs|] == xs;
  }

  lemma {:induction false} NewSet(us: seq<Unit>, kind: nat, x: bytes, unset: Unset)
    requires kind == VPS || kind == PPS
    requires (forall i :: 0 <= i < |us| ==> us[i].kind != kind) && |us| < MAX_UNITS && |x| >= 3
    requires UnitsTotal(us) + |x| <= ROOM
    ensures SetCopied(us, kind, x, UnitsTotal(us), unset) == Outcome(us + [Unit(kind, 1, x)], 1)
  {
    var room := ROOM - UnitsTotal(us);
    hide UnitsTotal, KeyIn;
    var key := KeyIn(kind, x, room);
    NoneOfKind(us, kind, key.own, Or(key.other, unset.mine), unset.other, room);
  }

  lemma {:induction false} NoneOfKind(us: seq<Unit>, kind: nat, own: byte, mine: byte, other: byte, room: nat)
    requires IsSet(kind) && forall i :: 0 <= i < |us| ==> us[i].kind != kind
    ensures FindUnit(us, kind, own, mine, other, room) == |us|
    decreases |us|
  {
    hide KeyIn;
    if us != [] { NoneOfKind(us[1..], kind, own, mine, other, room); }
  }

  // The units on the way: no SEI among them.
  lemma {:induction false} SceneUnits(x: bytes, y: bytes)
    ensures var a, b := [Unit(VPS, 1, x)], [Unit(VPS, 1, x), Unit(PPS, 1, y)];
      && UnitsTotal([]) == 0 && UnitsTotal(a) == |x| && UnitsTotal(b) == |x| + |y|
      && WithoutSei([]) == [] && WithoutSei(b) == b && [] + a == a && a + [Unit(PPS, 1, y)] == b
  {
    var a, b := [Unit(VPS, 1, x)], [Unit(VPS, 1, x), Unit(PPS, 1, y)];
    assert a[1..] == [] && b[1..] == [Unit(PPS, 1, y)] && b[1..][1..] == [];
    assert WithoutSei(b[1..]) == [b[1]] + WithoutSei([]) == [b[1]];
    assert WithoutSei(b) == [b[0]] + WithoutSei(b[1..]);
  }

  // So in a nearly full arena a video parameter set takes the place of one with another id.
  lemma {:induction false} OtherVpsLost(unset: Unset)
    ensures var x, y, p := SomeVps(1), SomeVps(2), LongPps();
      && KeyOfSet(VPS, x) != KeyOfSet(VPS, y)
      && AllUnits([x, p]) && Run([x, p], unset) == [Unit(VPS, 1, x), Unit(PPS, 1, p)]
      && Updated(Run([x, p], unset), y, unset) == Outcome([Unit(VPS, 1, y), Unit(PPS, 1, p)], 1)
  {
    var x, y, p := SomeVps(1), SomeVps(2), LongPps();
    SomeVpsKey(1);
    SomeVpsKey(2);
    SceneKinds();
    hide SomeVps, LongPps, KeyOfSet, WithoutSei, UnitsTotal, SetCopied, Updated, Run;
    TwoSets(x, p, unset);
    var b := [Unit(VPS, 1, x), Unit(PPS, 1, p)];
    SceneUnits(x, p);
    VpsUpdate(b, y, unset);
    FirstVps(b, y, unset, 0);
    Swapped(x, y, p);
  }

  lemma {:induction false} VpsUpdate(us: seq<Unit>, x: bytes, unset: Unset)
    requires x != [] && x[0] as nat / 2 % 64 == VPS && UnitsTotal(us) <= ROOM && WithoutSei(us) == us
    ensures Updated(us, x, unset) == SetCopied(us, VPS, x, UnitsTotal(us), unset)
  {
    hide SetCopied, WithoutSei, UnitsTotal;
  }

  // An empty store after a video and a picture parameter set.
  lemma {:induction false} TwoSets(x: bytes, p: bytes, unset: Unset)
    requires |x| >= 3 && |p| >= 3 && |x| + |p| <= ROOM
    requires x[0] as nat / 2 % 64 == VPS && p[0] as nat / 2 % 64 == PPS
    ensures AllUnits([x, p]) && Run([x, p], unset) == [Unit(VPS, 1, x), Unit(PPS, 1, p)]
  {
    hide SetCopied, WithoutSei, UnitsTotal, Run;
    var a := [Unit(VPS, 1, x)];
    SceneUnits(x, p);
    NoRun(unset);
    RunOn([], x, unset);
    assert [] + [x] == [x] && [x] + [p] == [x, p];
    VpsUpdate([], x, unset);
    NewSet([], VPS, x, unset);
    RunOn([x], p, unset);
    NewSet(a, PPS, p, unset);
  }

  lemma {:induction false} NoRun(unset: Unset)
    ensures AllUnits([]) && Run([], unset) == []
  {
  }

  lemma {:induction false} SceneKinds()
    ensures var x, y, p := SomeVps(1), SomeVps(2), LongPps();
      && |x| == |y| == 24 && |p| == 4060 && x != y
      && x[0] as nat / 2 % 64 == VPS && y[0] as nat / 2 % 64 == VPS && p[0] as nat / 2 % 64 == PPS
  {
    assert SomeVps(1)[2] != SomeVps(2)[2];
  }

  lemma {:induction false} Swapped(x: bytes, y: bytes, p: bytes)
    requires |x| == |y| && x != y
    ensures Replaced([Unit(VPS, 1, x), Unit(PPS, 1, p)], 0, y, |x| + |p|)
         == Outcome([Unit(VPS, 1, y), Unit(PPS, 1, p)], 1)
  {
  }
}
