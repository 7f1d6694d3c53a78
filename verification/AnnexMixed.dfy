/** H.264 byte streams as they come: start codes of any length, and length prefixes. */
module AnnexMixed {
  import opened Bytes
  import opened AnnexB
  import opened Options

  // ---------------------------------------------------------------------------
  // Start codes with any number of zeros in front of 00 00 01

  function Pad(n: nat): (z: bytes)
    ensures |z| == n
  {
    seq(n, _ => 0)
  }

  // A unit, and the zeros in front of its start code: one zero makes the form with four bytes.
  datatype Piece = Piece(zeros: nat, unit: bytes)

  function Mixed(ps: seq<Piece>, tail: nat): bytes {
    if ps == [] then Pad(tail) else Pad(ps[0].zeros) + [0, 0, 1] + ps[0].unit + Mixed(ps[1..], tail)
  }

  function UnitsIn(ps: seq<Piece>): (us: seq<bytes>)
    ensures |us| == |ps|
  {
    seq(|ps|, i requires 0 <= i < |ps| => ps[i].unit)
  }

  predicate AllCarriable(ps: seq<Piece>) { forall i :: 0 <= i < |ps| ==> Carriable(ps[i].unit) }

  lemma {:induction false} MixedFront(ps: seq<Piece>, tail: nat)
    requires ps != []
    ensures var s, z := Mixed(ps, tail), ps[0].zeros;
      && |s| == z + 3 + |ps[0].unit| + |Mixed(ps[1..], tail)|
      && s[z + 2] == 1 && (forall i :: 0 <= i < z + 2 ==> s[i] == 0)
      && s[z + 3..] == ps[0].unit + Mixed(ps[1..], tail)
  {
    var code, rest := Pad(ps[0].zeros) + [0, 0, 1], ps[0].unit + Mixed(ps[1..], tail);
    assert Mixed(ps, tail) == code + rest;
  }

  lemma {:induction false} StrippedPad(u: bytes, n: nat)
    requires Carriable(u)
    ensures Stripped(u + Pad(n)) == u
    decreases n
  {
    var s := u + Pad(n);
    if n == 0 {
      assert s == u;
    } else {
      assert s[..|s| - 1] == u + Pad(n - 1);
      StrippedPad(u, n - 1);
    }
  }

  // The first start code behind a unit is the next one.
  lemma {:induction false} NextPiece(u: bytes, rest: bytes, z: nat)
    requires Carriable(u) && |rest| > z + 3 && rest[z + 2] == 1 && forall i :: 0 <= i < z + 2 ==> rest[i] == 0
    ensures StartCode(u + rest, 2) == Some(|u| + z + 3)
    ensures (u + rest)[..|u| + z] == u + Pad(z) && (u + rest)[|u| + z + 3..] == rest[z + 3..]
  {
    var s, j := u + rest, |u| + z + 2;
    assert s[j] == 1 && s[j - 1] == 0 && s[j - 2] == 0;
    forall k | 2 <= k < j ensures !StartCodeAt(s, k) {
      if k < |u| { assert !StartCodeAt(u, k); } else { assert s[k] == rest[k - |u|]; }
    }
    StartCodeSkips(s, 2, j);
  }

  lemma {:induction false} LastPiece(u: bytes, tail: nat)
    requires Carriable(u)
    ensures UnitsBehind(u + Pad(tail)) == [u]
  {
    var s := u + Pad(tail);
    forall k | 2 <= k < |s| ensures !StartCodeAt(s, k) {
      if k < |u| { assert !StartCodeAt(u, k); }
    }
    NoStartCode(s, 2);
    StrippedPad(u, tail);
  }

  lemma {:induction false} PieceStep(u: bytes, rest: bytes, z: nat)
    requires Carriable(u) && |rest| > z + 3 && rest[z + 2] == 1 && forall i :: 0 <= i < z + 2 ==> rest[i] == 0
    ensures UnitsBehind(u + rest) == [u] + UnitsBehind(rest[z + 3..])
  {
    NextPiece(u, rest, z);
    StrippedPad(u, z);
    hide StartCode, Stripped, StartCodeAt, Pad;
    assert |u| + z + 3 - 3 == |u| + z;
  }

  lemma {:induction false} UnitsCons(ps: seq<Piece>)
    requires ps != []
    ensures UnitsIn(ps) == [ps[0].unit] + UnitsIn(ps[1..]) && UnitsIn([]) == []
  {
  }

  lemma {:induction false} CarriableRest(ps: seq<Piece>)
    requires ps != [] && AllCarriable(ps)
    ensures Carriable(ps[0].unit) && ps[0].unit != [] && AllCarriable(ps[1..])
  {
    assert forall i :: 0 <= i < |ps[1..]| ==> ps[1..][i] == ps[i + 1];
  }

  lemma {:induction false} BehindMixed(ps: seq<Piece>, tail: nat)
    requires ps != [] && AllCarriable(ps)
    ensures UnitsBehind(ps[0].unit + Mixed(ps[1..], tail)) == UnitsIn(ps)
    decreases |ps|
  {
    NoPieces(tail);
    hide UnitsBehind, Mixed, Carriable, AllCarriable, UnitsIn;
    var u, more := ps[0].unit, ps[1..];
    CarriableRest(ps);
    UnitsCons(ps);
    if more == [] {
      LastPiece(u, tail);
      assert [u] + [] == [u];
    } else {
      MixedFront(more, tail);
      CarriableRest(more);
      PieceStep(u, Mixed(more, tail), more[0].zeros);
      BehindMixed(more, tail);
    }
  }

  lemma {:induction false} NoPieces(tail: nat)
    ensures Mixed([], tail) == Pad(tail)
  {
  }

  // Splitting at start codes gives back the units, whatever the start codes and with any zeros at the end.
  lemma {:induction false} MixedSplit(ps: seq<Piece>, tail: nat)
    requires ps != [] && AllCarriable(ps)
    ensures UnitsOf(Mixed(ps, tail)) == UnitsIn(ps)
  {
    MixedFront(ps, tail);
    var s, z := Mixed(ps, tail), ps[0].zeros;
    assert s[z + 1] == 0 && s[z] == 0;
    StartCodeSkips(s, 2, z + 2);
    BehindMixed(ps, tail);
  }

  // ---------------------------------------------------------------------------
  // Telling them apart

  lemma {:induction false} ThreeBytes(s: bytes)
    requires |s| >= 4
    ensures LengthAt(s, 3) == s[0] as nat * 0x1_0000 + s[1] as nat * 0x100 + s[2] as nat
    ensures LengthAt(s, 4) == LengthAt(s, 3) * 0x100 + s[3] as nat
  {
    assert LengthAt(s, 1) == s[0] as nat;
    assert LengthAt(s, 2) == s[0] as nat * 256 + s[1] as nat;
  }

  // Such input is split at start codes unless it begins with one of three bytes and also reads as length-prefixed.
  lemma {:induction false} MixedFraming(ps: seq<Piece>, tail: nat)
    requires ps != [] && AllCarriable(ps)
    ensures var s := Mixed(ps, tail);
      FramingOf(s) ==
        if ps[0].zeros > 0 then StartCodes
        else match ReadsAsPrefixed(s, 4)
             case Yes => Prefixed(4)
             case No => StartCodes
             case Endless => Undecided
  {
    var s := Mixed(ps, tail);
    MixedFront(ps, tail);
    ThreeBytes(s);
    hide LengthAt, ReadsAsPrefixed;
  }

  // What is read as the first unit is then not the first unit.
  lemma {:induction false} OtherFirst(ps: seq<Piece>, tail: nat)
    requires ps != [] && AllCarriable(ps) && ps[0].zeros == 0 && ReadsAsPrefixed(Mixed(ps, tail), 4).Yes?
    ensures var us := PrefixedUnits(Mixed(ps, tail), 4); us != [] && us[0] != ps[0].unit
  {
    var s, u := Mixed(ps, tail), ps[0].unit;
    MixedFront(ps, tail);
    ThreeBytes(s);
    var n := LengthAt(s, 4);
    assert n == 0x100 + s[3] as nat;
    hide LengthAt;
    assert |s| >= 6;
    assert n + 4 <= |s|;
    var first := s[4..4 + n];
    assert NonEmpty(first) == [first];
    if |u| == n {
      ByteBehind(ps, tail);
      assert first[n - 1] == s[3 + n];
      assert u[n - 1] != 0;
    }
  }

  lemma {:induction false} ByteBehind(ps: seq<Piece>, tail: nat)
    requires ps != [] && ps[0].zeros == 0 && |Mixed(ps, tail)| > 3 + |ps[0].unit|
    ensures Mixed(ps, tail)[3 + |ps[0].unit|] == 0
  {
    var s, u, rest := Mixed(ps, tail), ps[0].unit, Mixed(ps[1..], tail);
    MixedFront(ps, tail);
    assert s[3..][|u|] == (u + rest)[|u|] == rest[0];
    if |ps| > 1 { MixedFront(ps[1..], tail); }
  }

  // So the units are those framed exactly unless that happens.
  lemma {:induction false} MixedUnits(ps: seq<Piece>, tail: nat)
    requires ps != [] && AllCarriable(ps) && !FramingOf(Mixed(ps, tail)).Undecided?
    ensures Units(Mixed(ps, tail)) == UnitsIn(ps) <==> ps[0].zeros > 0 || !ReadsAsPrefixed(Mixed(ps, tail), 4).Yes?
  {
    MixedFraming(ps, tail);
    MixedSplit(ps, tail);
    if ps[0].zeros == 0 && ReadsAsPrefixed(Mixed(ps, tail), 4).Yes? { OtherFirst(ps, tail); }
    hide Mixed, FramingOf, ReadsAsPrefixed, UnitsOf, PrefixedUnits, AllCarriable;
  }

  // It does happen: one unit of 360 bytes behind a three-byte start code.
  lemma {:induction false} StartCodeMisread()
    ensures var ps := [Piece(0, [0x67] + seq(359, _ => 1))];
      AllCarriable(ps) && FramingOf(Mixed(ps, 0)) == Prefixed(4) && Units(Mixed(ps, 0)) != UnitsIn(ps)
  {
    var u: bytes := [0x67] + seq(359, _ => 1);
    var ps := [Piece(0, u)];
    var s := Mixed(ps, 0);
    MixedFront(ps, 0);
    NoPieces(0);
    assert ps[1..] == [] && |s| == 363 && s[3] == s[3..][0] == 0x67;
    ThreeBytes(s);
    hide LengthAt, Mixed;
    assert s[363..] == [];
    MixedFraming(ps, 0);
    MixedUnits(ps, 0);
  }

  // ---------------------------------------------------------------------------
  // Length prefixes

  predicate Fit(us: seq<bytes>, size: nat) {
    forall i :: 0 <= i < |us| ==> us[i] != [] && |us[i]| < if size == 3 then 0x100_0000 else 0x8000_0000
  }

  function PrefixedBy(us: seq<bytes>, size: nat): bytes
    requires (size == 3 || size == 4) && Fit(us, size)
  {
    if us == [] then []
    else
      (assert |us[0]| < if size == 3 then 0x100_0000 else 0x8000_0000;
       (if size == 3 then Be24(|us[0]|) else Be32(|us[0]|)) + (us[0] + PrefixedBy(us[1..], size)))
  }

  lemma {:induction false} PrefixRead(us: seq<bytes>, size: nat)
    requires (size == 3 || size == 4) && Fit(us, size) && us != []
    ensures var s, u := PrefixedBy(us, size), us[0];
      && Fit(us[1..], size) && |s| == size + |u| + |PrefixedBy(us[1..], size)| && u != []
      && LengthAt(s, size) == |u| && s[size..size + |u|] == u && s[size + |u|..] == PrefixedBy(us[1..], size)
      && PrefixStep(s, size) == size + |u|
  {
    assert us[0] != [] && |us[0]| < 0x8000_0000;
    var s, u, rest := PrefixedBy(us, size), us[0], PrefixedBy(us[1..], size);
    var head := if size == 3 then Be24(|u|) else Be32(|u|);
    assert s == head + (u + rest);
    HeadRead(s, head, u + rest, |u|, size);
  }

  lemma {:induction false} HeadRead(s: bytes, head: bytes, rest: bytes, v: nat, size: nat)
    requires s == head + rest && rest != []
    requires if size == 3 then v < 0x100_0000 && head == Be24(v) else size == 4 && v < POW32 && head == Be32(v)
    ensures LengthAt(s, size) == v
  {
    ThreeBytes(s);
    hide LengthAt;
    if size == 3 { Be24RoundTrip(v); } else { Be32RoundTrip(v); }
  }

  // Length-prefixed units are split where they were joined.
  lemma {:induction false} PrefixedSplit(us: seq<bytes>, size: nat)
    requires (size == 3 || size == 4) && Fit(us, size)
    ensures PrefixedUnits(PrefixedBy(us, size), size) == us
    decreases |us|
  {
    hide PrefixedBy, LengthAt, PrefixStep, PrefixedUnits, Fit;
    NothingPrefixed(us, size);
    FirstPrefixed(PrefixedBy(us, size), size);
    if us != [] {
      PrefixRead(us, size);
      PrefixedSplit(us[1..], size);
      assert [us[0]] + us[1..] == us;
    }
  }

  lemma {:induction false} FirstPrefixed(s: bytes, size: nat)
    requires size == 3 || size == 4
    ensures PrefixedUnits(s, size)
         == if |s| <= size || LengthAt(s, size) + size > |s| then []
            else var n := LengthAt(s, size); NonEmpty(s[size..size + n]) + PrefixedUnits(s[size + n..], size)
  {
    hide LengthAt;
  }

  // The trial accepts them unless the last unit has a single byte.
  lemma {:induction false} PrefixedTrial(us: seq<bytes>, size: nat)
    requires (size == 3 || size == 4) && Fit(us, size)
    ensures ReadsAsPrefixed(PrefixedBy(us, size), size) == if us == [] || |us[|us| - 1]| > 1 then Yes else No
    decreases |us|
  {
    if us != [] {
      PrefixRead(us, size);
      NothingPrefixed(us[1..], size);
      hide PrefixedBy, LengthAt, PrefixStep;
      PrefixedTrial(us[1..], size);
    }
  }

  lemma {:induction false} NothingPrefixed(us: seq<bytes>, size: nat)
    requires (size == 3 || size == 4) && Fit(us, size)
    ensures us == [] <==> PrefixedBy(us, size) == []
    ensures us != [] ==> |PrefixedBy(us, size)| > size
  {
    if us != [] { assert us[0] != []; }
  }

  // Four-byte lengths are recognised exactly when neither the first nor the last unit has a single byte, and the units
  // are then those that were joined.
  lemma {:induction false} FourRecognised(us: seq<bytes>)
    requires us != [] && Fit(us, 4)
    ensures var s := PrefixedBy(us, 4);
      && (FramingOf(s) == Prefixed(4) <==> |us[0]| > 1 && |us[|us| - 1]| > 1)
      && (FramingOf(s) == Prefixed(4) ==> Units(s) == us)
  {
    var s := PrefixedBy(us, 4);
    PrefixRead(us, 4);
    PrefixedTrial(us, 4);
    PrefixedSplit(us, 4);
    ThreeBytes(s);
    hide PrefixedBy, LengthAt, PrefixedUnits, ReadsAsPrefixed, UnitsOf, PrefixStep;
  }

  // Three-byte lengths, when in addition the same bytes do not read as four-byte lengths.
  lemma {:induction false} ThreeRecognised(us: seq<bytes>)
    requires us != [] && Fit(us, 3)
    ensures var s := PrefixedBy(us, 3);
      && (FramingOf(s) == Prefixed(3) <==> |us[0]| > 1 && |us[|us| - 1]| > 1 && ReadsAsPrefixed(s, 4).No?)
      && (FramingOf(s) == Prefixed(3) ==> Units(s) == us)
  {
    var s := PrefixedBy(us, 3);
    PrefixRead(us, 3);
    PrefixedTrial(us, 3);
    PrefixedSplit(us, 3);
    hide PrefixedBy, LengthAt, PrefixedUnits, ReadsAsPrefixed, UnitsOf, PrefixStep;
  }
}
