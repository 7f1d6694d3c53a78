/** H.264 units between start codes and behind length prefixes. */
module AnnexB {
  import opened Bytes
  import opened AvcSets
  import opened Options

  const START_CODE: bytes := [0, 0, 0, 1]

  // ---------------------------------------------------------------------------
  // Splitting at start codes

  predicate StartCodeAt(s: bytes, i: nat)
    requires 2 <= i < |s|
  {
    s[i] == 1 && s[i - 1] == 0 && s[i - 2] == 0
  }

  // The position behind the first 00 00 01 that ends at or after `i` and has a byte behind it.
  function StartCode(s: bytes, i: nat): (r: Option<nat>)
    requires i >= 2
    ensures r.Some? ==> i < r.value < |s| && StartCodeAt(s, r.value - 1)
    decreases |s| - i
  {
    if i + 1 >= |s| then None else if StartCodeAt(s, i) then Some(i + 1) else StartCode(s, i + 1)
  }

  function Stripped(s: bytes): (r: bytes)
    ensures r <= s && (r != [] ==> r[|r| - 1] != 0)
  {
    if s != [] && s[|s| - 1] == 0 then Stripped(s[..|s| - 1]) else s
  }

  function NonEmpty(u: bytes): seq<bytes> { if u == [] then [] else [u] }

  // The units of `s`, which begins right behind a start code.
  function UnitsBehind(s: bytes): seq<bytes>
    decreases |s|
  {
    match StartCode(s, 2)
    case None => NonEmpty(Stripped(s))
    case Some(next) => NonEmpty(Stripped(s[..next - 3])) + UnitsBehind(s[next..])
  }

  function UnitsOf(s: bytes): seq<bytes> {
    match StartCode(s, 2)
    case None => []
    case Some(p) => UnitsBehind(s[p..])
  }

  // ---------------------------------------------------------------------------
  // Length prefixes, and telling the two framings apart

  function LengthAt(s: bytes, size: nat): nat
    requires size <= |s|
  {
    if size == 0 then 0 else LengthAt(s, size - 1) * 256 + s[size - 1] as int
  }

  datatype Verdict = Yes | No | Endless

  // Lengths from 2^31 on are sign-extended to 64 bits, so the step to the next unit is taken modulo 2^64.
  function PrefixStep(s: bytes, size: nat): nat
    requires size <= |s|
  {
    var n := LengthAt(s, size);
    ((if n >= 0x8000_0000 then n + 0xFFFF_FFFF_0000_0000 else n) + size) % POW64
  }

  // Whether `s` reads as length-prefixed units; a step of nothing never ends.
  function ReadsAsPrefixed(s: bytes, size: nat): Verdict
    requires size == 3 || size == 4
    decreases |s|
  {
    if size + 1 >= |s| then (if s == [] then Yes else No)
    else
      var step := PrefixStep(s, size);
      if step > |s| then No else if step == 0 then Endless else ReadsAsPrefixed(s[step..], size)
  }

  datatype Framing = StartCodes | Prefixed(size: nat) | Unknown | Undecided

  function FramingOf(s: bytes): Framing {
    if |s| < 4 then Unknown
    else
      var n := LengthAt(s, 3);
      if n == 0 && s[3] <= 1 then StartCodes
      else
        var four := ReadsAsPrefixed(s, 4);
        if four.Endless? then Undecided
        else if four.Yes? then Prefixed(4)
        else if n == 1 then StartCodes
        else
          var three := ReadsAsPrefixed(s, 3);
          if three.Endless? then Undecided else if three.Yes? then Prefixed(3) else Unknown
  }

  // The trial with four-byte lengths comes to a place with more than five bytes left.
  predicate Reached(s: bytes, p: nat)
    decreases p
  {
    5 < |s| && (p == 0 || (0 < PrefixStep(s, 4) <= p && PrefixStep(s, 4) <= |s|
                           && Reached(s[PrefixStep(s, 4)..], p - PrefixStep(s, 4))))
  }

  predicate StallsAt(s: bytes, p: nat) { p + 5 < |s| && s[p..p + 4] == [0xFF, 0xFF, 0xFF, 0xFC] }

  lemma {:induction false} FourBytes(s: bytes)
    requires |s| >= 4
    ensures LengthAt(s, 4) == Read32(s[..4]) && (LengthAt(s, 4) == 0xFFFF_FFFC <==> s[..4] == [0xFF, 0xFF, 0xFF, 0xFC])
    ensures LengthAt(s, 3) < 0x100_0000 && LengthAt(s, 4) < POW32
  {
    assert LengthAt(s, 1) == s[0] as nat;
    assert LengthAt(s, 2) == s[0] as nat * 256 + s[1] as nat;
    assert LengthAt(s, 3) == (s[0] as nat * 256 + s[1] as nat) * 256 + s[2] as nat;
  }

  lemma {:induction false} StepOfNothing(s: bytes)
    requires |s| >= 4
    ensures PrefixStep(s, 4) == 0 <==> s[..4] == [0xFF, 0xFF, 0xFF, 0xFC]
    ensures PrefixStep(s, 3) > 0
  {
    FourBytes(s);
    hide LengthAt;
  }

  lemma {:induction false} EndlessIff(s: bytes)
    ensures ReadsAsPrefixed(s, 4).Endless? <==> exists p :: 0 <= p < |s| && Reached(s, p) && StallsAt(s, p)
    decreases |s|
  {
    if 5 < |s| {
      StepOfNothing(s);
      var step := PrefixStep(s, 4);
      hide PrefixStep;
      assert s[0..4] == s[..4];
      if step == 0 {
        assert Reached(s, 0) && StallsAt(s, 0);
      } else if step <= |s| {
        EndlessIff(s[step..]);
        StallsBehind(s);
      }
    }
  }

  lemma {:induction false} StallsNext(s: bytes, step: nat, p: nat)
    requires step <= p <= |s|
    ensures StallsAt(s, p) <==> StallsAt(s[step..], p - step)
  {
    assert p + 5 < |s| ==> s[step..][p - step..p - step + 4] == s[p..p + 4];
  }

  // A place where the trial stalls is not the first one, from which it goes on.
  lemma {:induction false} StallsLater(s: bytes, p: nat)
    requires 5 < |s| && 0 < PrefixStep(s, 4) <= |s| && p < |s| && Reached(s, p) && StallsAt(s, p)
    ensures p >= PrefixStep(s, 4)
  {
    StepOfNothing(s);
    ReachedFar(s, p);
    hide PrefixStep, Reached;
    assert s[0..4] == s[..4];
  }

  lemma {:induction false} StallsBehind(s: bytes)
    requires 5 < |s| && 0 < PrefixStep(s, 4) <= |s|
    ensures (exists p :: 0 <= p < |s| && Reached(s, p) && StallsAt(s, p)) <==>
      (var rest := s[PrefixStep(s, 4)..]; exists p :: 0 <= p < |rest| && Reached(rest, p) && StallsAt(rest, p))
  {
    hide PrefixStep, Reached, StallsAt;
    var step := PrefixStep(s, 4);
    var rest := s[step..];
    if p :| 0 <= p < |s| && Reached(s, p) && StallsAt(s, p) {
      StallsLater(s, p);
      ReachedNext(s, p);
      StallsNext(s, step, p);
      assert Reached(rest, p - step) && StallsAt(rest, p - step);
    }
    if q :| 0 <= q < |rest| && Reached(rest, q) && StallsAt(rest, q) {
      ReachedNext(s, step + q);
      StallsNext(s, step, step + q);
      assert Reached(s, step + q) && StallsAt(s, step + q);
    }
  }

  lemma {:induction false} ReachedNext(s: bytes, p: nat)
    requires 5 < |s| && 0 < PrefixStep(s, 4) <= |s| && p >= PrefixStep(s, 4)
    ensures Reached(s, p) <==> Reached(s[PrefixStep(s, 4)..], p - PrefixStep(s, 4))
  {
    hide PrefixStep;
  }

  lemma {:induction false} ReachedFar(s: bytes, p: nat)
    requires Reached(s, p)
    ensures p == 0 || p >= PrefixStep(s, 4)
  {
    hide PrefixStep;
  }

  lemma {:induction false} ThreeEnds(s: bytes)
    ensures !ReadsAsPrefixed(s, 3).Endless?
    decreases |s|
  {
    if 4 < |s| {
      StepOfNothing(s);
      var step := PrefixStep(s, 3);
      if step <= |s| { ThreeEnds(s[step..]); }
    }
  }

  // Telling the framings apart goes on for ever exactly when the trial with four-byte lengths, which is made unless the
  // input begins like a start code of three or four bytes, reaches a length of 2^32 - 4 with more than five bytes left.
  lemma {:induction false} UndecidedIff(s: bytes)
    ensures FramingOf(s).Undecided? <==>
      (|s| >= 4 && !(LengthAt(s, 3) == 0 && s[3] <= 1) && exists p :: 0 <= p < |s| && Reached(s, p) && StallsAt(s, p))
  {
    hide LengthAt, PrefixStep, Reached;
    EndlessIff(s);
    ThreeEnds(s);
  }

  lemma {:induction false} NeverDecided()
    ensures FramingOf([0xFF, 0xFF, 0xFF, 0xFC, 0, 0]).Undecided?
  {
    var s: bytes := [0xFF, 0xFF, 0xFF, 0xFC, 0, 0];
    assert s[0..4] == [0xFF, 0xFF, 0xFF, 0xFC];
    FourBytes(s);
    assert LengthAt(s, 1) == 0xFF;
    assert LengthAt(s, 2) == 0xFFFF;
    assert LengthAt(s, 3) == 0xFF_FFFF;
    UndecidedIff(s);
    hide LengthAt, PrefixStep, FramingOf;
    assert Reached(s, 0) && StallsAt(s, 0);
  }

  function PrefixedUnits(s: bytes, size: nat): seq<bytes>
    requires size == 3 || size == 4
    decreases |s|
  {
    if |s| <= size then []
    else
      var n := LengthAt(s, size);
      if n + size > |s| then [] else NonEmpty(s[size..size + n]) + PrefixedUnits(s[size + n..], size)
  }

  // The units handed to a handler, in order; input that is neither framing for certain is split at start codes.
  function Units(s: bytes): seq<bytes>
    requires !FramingOf(s).Undecided?
  {
    if FramingOf(s).Prefixed? then PrefixedUnits(s, FramingOf(s).size) else UnitsOf(s)
  }

  // ---------------------------------------------------------------------------
  // Framing

  function Framed(us: seq<bytes>): bytes {
    if us == [] then [] else START_CODE + us[0] + Framed(us[1..])
  }

  function PrefixedAll(us: seq<bytes>): bytes
    requires forall i :: 0 <= i < |us| ==> |us[i]| < POW32
  {
    if us == [] then [] else Be32(|us[0]|) + us[0] + PrefixedAll(us[1..])
  }

  // A unit that start codes can carry: not empty, no start code inside, no trailing zero byte.
  predicate Carriable(u: bytes) {
    u != [] && u[|u| - 1] != 0 && forall i :: 2 <= i < |u| ==> !StartCodeAt(u, i)
  }

  lemma {:induction false} StartCodeSkips(s: bytes, i: nat, j: nat)
    requires 2 <= i <= j && j + 1 < |s| && StartCodeAt(s, j)
    requires forall k :: i <= k < j ==> !StartCodeAt(s, k)
    ensures StartCode(s, i) == Some(j + 1)
    decreases j - i
  {
    if i < j { StartCodeSkips(s, i + 1, j); }
  }

  lemma {:induction false} NoStartCode(s: bytes, i: nat)
    requires 2 <= i && forall k :: i <= k < |s| ==> !StartCodeAt(s, k)
    ensures StartCode(s, i) == None
    decreases |s| - i
  {
    if i + 1 < |s| { NoStartCode(s, i + 1); }
  }

  lemma {:induction false} FramedFront(us: seq<bytes>)
    requires us != [] && forall i :: 0 <= i < |us| ==> Carriable(us[i])
    ensures |Framed(us)| > 4 && Framed(us)[..4] == START_CODE
    ensures Framed(us)[4..] == us[0] + Framed(us[1..])
  {
    assert Framed(us) == START_CODE + (us[0] + Framed(us[1..]));
  }

  // Between a unit and the next the first start code ends with the next one's.
  lemma {:induction false} NextStartCode(u: bytes, rest: bytes)
    requires Carriable(u) && |rest| > 4 && rest[..4] == START_CODE
    ensures StartCode(u + rest, 2) == Some(|u| + 4)
    ensures (u + rest)[..|u| + 1] == u + [0] && (u + rest)[|u| + 4..] == rest[4..]
  {
    var s, j := u + rest, |u| + 3;
    assert rest == rest[..4] + rest[4..];
    assert s[j] == 1 && s[j - 1] == 0 && s[j - 2] == 0 && s[j - 3] == 0;
    forall k | 2 <= k < j ensures !StartCodeAt(s, k) {
      if k < |u| { assert !StartCodeAt(u, k); }
    }
    StartCodeSkips(s, 2, j);
  }

  lemma {:induction false} StrippedZero(u: bytes)
    requires Carriable(u)
    ensures Stripped(u + [0]) == Stripped(u) == u
  {
    assert (u + [0])[..|u|] == u;
  }

  lemma {:induction false} UnitsStep(u: bytes, rest: bytes)
    requires Carriable(u) && |rest| > 4 && rest[..4] == START_CODE
    ensures UnitsBehind(u + rest) == [u] + UnitsBehind(rest[4..])
  {
    NextStartCode(u, rest);
    StrippedZero(u);
    hide StartCode, Stripped, StartCodeAt;
    var s, next := u + rest, |u| + 4;
    assert s[..next - 3] == u + [0];
  }

  lemma {:induction false} UnitsBehindFramed(us: seq<bytes>)
    requires us != [] && forall i :: 0 <= i < |us| ==> Carriable(us[i])
    ensures UnitsBehind(us[0] + Framed(us[1..])) == us
  {
    var u, rest := us[0], Framed(us[1..]);
    if |us| == 1 {
      assert u + rest == u;
      NoStartCode(u, 2);
      StrippedZero(u);
      assert NonEmpty(u) == us;
    } else {
      hide StartCode, Stripped, StartCodeAt, UnitsBehind;
      FramedFront(us[1..]);
      UnitsStep(u, rest);
      UnitsBehindFramed(us[1..]);
      assert [u] + us[1..] == us;
    }
  }

  // Splitting gives back the units that were framed, and framed input is always taken for what it is.
  lemma {:induction false} UnitsFramed(us: seq<bytes>)
    requires us != [] && forall i :: 0 <= i < |us| ==> Carriable(us[i])
    ensures FramingOf(Framed(us)) == StartCodes
    ensures Units(Framed(us)) == us
  {
    var s := Framed(us);
    FramedFront(us);
    assert s[0] == s[..4][0] && s[1] == s[..4][1] && s[2] == s[..4][2] && s[3] == s[..4][3];
    assert LengthAt(s, 3) == 0 by {
      assert LengthAt(s, 0) == 0 && LengthAt(s, 1) == 0 && LengthAt(s, 2) == 0;
    }
    StartCodeSkips(s, 2, 3);
    UnitsBehindFramed(us);
  }
}
