/** The H.264 converters as they run: scanning loops, one output buffer, and a parameter-set store. */
module Mp4Converter {
  import opened Bytes
  import opened AnnexB
  import opened Options
  import R = Arena
  import S = AvcSets
  import A = AvcStore
  import M = Mp4Framing

  // ---------------------------------------------------------------------------
  // Splitting

  method FindStartCode(s: bytes) returns (r: Option<nat>)
    ensures r == StartCode(s, 2)
  {
    var i := 2;
    while i + 1 < |s|
      invariant i >= 2 && StartCode(s, 2) == StartCode(s, i)
    {
      if s[i] == 1 && s[i - 1] == 0 && s[i - 2] == 0 { return Some(i + 1); }
      i := i + 1;
    }
    r := None;
  }

  method StripZeros(s: bytes) returns (r: bytes)
    ensures r == Stripped(s)
  {
    var n: nat := |s|;
    assert s[..n] == s;
    while n > 0 && s[n - 1] == 0
      invariant n <= |s| && Stripped(s) == Stripped(s[..n])
    {
      assert s[..n][..n - 1] == s[..n - 1];
      n := n - 1;
    }
    r := s[..n];
  }

  method AppendNonEmpty(us: seq<bytes>, u: bytes) returns (r: seq<bytes>)
    ensures r == us + NonEmpty(u)
  {
    r := us;
    if u != [] { r := r + [u]; }
  }

  method SplitAtStartCodes(s: bytes) returns (us: seq<bytes>)
    ensures us == UnitsOf(s)
  {
    hide StartCode, Stripped, NonEmpty;
    us := [];
    var p := FindStartCode(s);
    if p.None? { return; }
    var rest, more := s[p.value..], true;
    while more
      invariant UnitsOf(s) == us + (if more then UnitsBehind(rest) else [])
      decreases more, |rest|
    {
      var next := FindStartCode(rest);
      var u := StripZeros(if next.Some? then rest[..next.value - 3] else rest);
      Regroup(us, NonEmpty(u), if next.Some? then UnitsBehind(rest[next.value..]) else []);
      us := AppendNonEmpty(us, u);
      if next.Some? { rest := rest[next.value..]; } else { more := false; }
    }
  }

  method ReadLength(s: bytes, size: nat) returns (n: nat)
    requires size <= |s|
    ensures n == LengthAt(s, size)
  {
    n := 0;
    for i := 0 to size
      invariant n == LengthAt(s, i)
    {
      n := n * 256 + s[i] as int;
    }
  }

  method CheckPrefixed(s: bytes, size: nat) returns (yes: bool)
    requires (size == 3 || size == 4) && !ReadsAsPrefixed(s, size).Endless?
    ensures yes <==> ReadsAsPrefixed(s, size).Yes?
  {
    var rest := s;
    while size + 1 < |rest|
      invariant ReadsAsPrefixed(s, size) == ReadsAsPrefixed(rest, size)
      decreases |rest|
    {
      var n := ReadLength(rest, size);
      var wide := if n >= 0x8000_0000 then n + 0xFFFF_FFFF_0000_0000 else n;
      var step := (wide + size) % POW64;
      if step > |rest| { return false; }
      rest := rest[step..];
    }
    yes := rest == [];
  }

  method DetectFraming(s: bytes) returns (f: Framing)
    requires !FramingOf(s).Undecided?
    ensures f == FramingOf(s)
  {
    if |s| < 4 { return Unknown; }
    var n := ReadLength(s, 3);
    if n == 0 && s[3] <= 1 { return StartCodes; }
    var four := CheckPrefixed(s, 4);
    if four { return Prefixed(4); }
    if n == 1 { return StartCodes; }
    var three := CheckPrefixed(s, 3);
    f := if three then Prefixed(3) else Unknown;
  }

  method SplitPrefixed(s: bytes, size: nat) returns (us: seq<bytes>)
    requires size == 3 || size == 4
    ensures us == PrefixedUnits(s, size)
  {
    hide LengthAt, NonEmpty;
    us := [];
    var rest := s;
    while |rest| > size
      invariant PrefixedUnits(s, size) == us + PrefixedUnits(rest, size)
      decreases |rest|
    {
      var n := ReadLength(rest, size);
      if n + size > |rest| { return; }
      var u := rest[size..size + n];
      Regroup(us, NonEmpty(u), PrefixedUnits(rest[size + n..], size));
      us := AppendNonEmpty(us, u);
      rest := rest[size + n..];
    }
  }

  // The units a handler is called with, in order.
  method SplitUnits(s: bytes) returns (us: seq<bytes>)
    requires !FramingOf(s).Undecided?
    ensures us == Units(s)
  {
    var f := DetectFraming(s);
    if f.Prefixed? { us := SplitPrefixed(s, f.size); } else { us := SplitAtStartCodes(s); }
  }

  // ---------------------------------------------------------------------------
  // Start codes to length prefixes

  // No unit wraps the counter of picture parameter sets.
  ghost predicate NeverWraps(s: S.Sets, us: seq<bytes>)
    requires M.Ordinary(us)
    decreases |us|
  {
    us == [] || (!S.Wraps(s, us[0]) && NeverWraps(S.Update(s, us[0]).0, us[1..]))
  }

  lemma {:induction false} OnUnitSets(m: M.Muxer, capacity: nat, u: bytes)
    requires u != [] && |u| < POW32
    ensures M.OnUnit(m, capacity, u).sets == S.Update(m.sets, u).0
  {
    hide S.Update;
  }

  // The stored sets keep tiling their arena as long as the counter of picture parameter sets does not wrap.
  method AnnexBToMp4(store: A.AvcStore, data: bytes, out: array<byte>, ghost full: bool)
    returns (r: int, vcl: int, update: bool)
    requires store.Valid(full) && !FramingOf(data).Undecided? && |data| < POW32
    requires out != store.data
    modifies store, store.data, store.sps, store.pps, out
    ensures (M.UnitsOrdinary(data); store.Valid(full && NeverWraps(old(store.Value()), Units(data))))
    ensures var c := M.ToMp4(old(store.Value()), data, out.Length);
      && r == c.result && vcl == c.m.vcl && update == c.m.update && store.Value() == c.m.sets
      && |c.m.out| <= out.Length && out[..|c.m.out|] == c.m.out
  {
    hide M.OnUnit, S.Wraps, S.Update, R.Tiles, A.AvcStore.Layout, A.AvcStore.Value;
    M.UnitsOrdinary(data);
    var us := SplitUnits(data);
    var count, err := 0, 0;
    vcl, update := 0, false;
    ghost var start := M.Muxer(store.Value(), [], 0, false, 0);
    assert us[0..] == us;
    assert out[..0] == [];
    ghost var tiled, never := full, NeverWraps(store.Value(), us);
    for i := 0 to |us|
      invariant store.Valid(tiled) && count <= out.Length
      invariant never ==> NeverWraps(store.Value(), us[i..]) && tiled == full
      invariant M.OnUnits(start, out.Length, us)
             == M.OnUnits(M.Muxer(store.Value(), out[..count], err, update, vcl), out.Length, us[i..])
    {
      var u := us[i];
      assert us[i..][0] == u && us[i..][1..] == us[i + 1..];
      ghost var m, wraps := M.Muxer(store.Value(), out[..count], err, update, vcl), S.Wraps(store.Value(), u);
      count, err, update, vcl := TakeUnit(store, u, out, count, err, update, vcl, tiled);
      tiled := tiled && !wraps;
      OnUnitSets(m, out.Length, u);
      assert M.Muxer(store.Value(), out[..count], err, update, vcl) == M.OnUnit(m, out.Length, u);
    }
    assert us[|us|..] == [];
    if !(full && never) { store.Loosened(tiled); }
    r := if err == 0 then count else 0;
  }

  method TakeUnit(
    store: A.AvcStore, u: bytes, out: array<byte>, count: nat, err: int, update: bool, vcl: int, ghost full: bool)
    returns (count': nat, err': int, update': bool, vcl': int)
    requires store.Valid(full) && u != [] && |u| < POW32 && count <= out.Length
    requires out != store.data
    modifies store, store.data, store.sps, store.pps, out
    ensures store.Valid(full && !old(S.Wraps(store.Value(), u))) && count' <= out.Length
    ensures M.Muxer(store.Value(), out[..count'], err', update', vcl')
         == M.OnUnit(M.Muxer(old(store.Value()), old(out[..count]), err, update, vcl), out.Length, u)
  {
    hide S.Update, S.Wraps;
    var r := store.Update(u, full);
    assert out[..count] == old(out[..count]);
    count', err', update', vcl' := count, err, update, vcl;
    if r == 1 { update' := true; } else if r < 0 { err' := r; }
    var kind := u[0] % 32;
    if 1 <= kind <= S.NAL_IDR { vcl' := if kind == S.NAL_IDR then 1 else 2; }
    if out.Length >= count + |u| + 4 {
      A.CopyIn(out, count, Be32(|u|));
      ghost var half := out[..];
      A.CopyIn(out, count + 4, u);
      count' := count + |u| + 4;
      assert out[..count'] == old(out[..count]) + (Be32(|u|) + u);
    } else {
      err' := -1;
    }
  }

  // ---------------------------------------------------------------------------
  // Length prefixes to start codes

  method CopyOver(a: array<byte>, at: nat, x: bytes)
    requires at + |x| <= a.Length
    modifies a
    ensures a[..] == Written(old(a[..]), at, x)
  {
    A.CopyIn(a, at, x);
  }

  lemma {:induction false} WrittenParts(before: bytes, start: bytes, at: nat, x: bytes)
    requires at + |x| <= |before| == |start| && before[at..] == start[at..]
    ensures Written(before, at, x)[..at + |x|] == before[..at] + x
    ensures Written(before, at, x)[at + |x|..] == start[at + |x|..]
  {
    assert before[at..][|x|..] == before[at + |x|..] && start[at..][|x|..] == start[at + |x|..];
  }

  // Write the sets behind the first `at` bytes, with the first `room` bytes for all; -1 when one is held back.
  method PutSets(us: seq<bytes>, out: array<byte>, room: nat, at: nat, spare: nat) returns (end: int)
    requires at <= out.Length && |M.WriteSets(us, out[..at], room, spare).k| <= out.Length
    modifies out
    ensures var w := M.WriteSets(us, old(out[..at]), room, spare);
      && at <= |w.k| <= out.Length && out[..|w.k|] == w.k && out[|w.k|..] == old(out[..])[|w.k|..]
      && end == if w.complete then |w.k| else -1
  {
    hide M.SetBytes, Written;
    var k, i := at, 0;
    ghost var out0 := out[..];
    assert us[0..] == us;
    while i < |us| && room >= k + |us[i]| + spare
      invariant i <= |us| && at <= k <= out.Length
      invariant M.WriteSets(us, out0[..at], room, spare) == M.WriteSets(us[i..], out[..k], room, spare)
      invariant out[k..] == out0[k..]
      decreases |us| - i
    {
      var x := M.SetBytes(us[i]);
      assert us[i..][0] == us[i] && us[i..][1..] == us[i + 1..];
      M.WriteSetsGrows(us[i + 1..], out[..k] + x, room, spare);
      ghost var before := out[..];
      assert before[k..] == out0[k..];
      CopyOver(out, k, x);
      WrittenParts(before, out0, k, x);
      assert out[..k + |x|] == out[..][..k + |x|] && out[k + |x|..] == out[..][k + |x|..];
      k, i := k + |x|, i + 1;
    }
    end := if i < |us| then -1 else k;
  }

  // All stored sets, checked against the first `room` bytes.
  method WriteStoredSets(store: A.AvcStore, out: array<byte>, room: nat) returns (n: int)
    requires store.Layout() && room <= out.Length && M.SetsInside(store.Value(), room, out.Length)
    requires out != store.data
    modifies out
    ensures store.Layout() && store.Value() == old(store.Value())
    ensures var w := M.SetsToUnits(store.Value(), room);
      && |w.k| <= out.Length && out[..|w.k|] == w.k && out[|w.k|..] == old(out[..])[|w.k|..]
      && n == if w.complete then |w.k| else -1
  {
    var sps := StoredSps(store);
    var pps := StoredPps(store);
    M.FourSuffice(sps, [], room);
    assert out[..0] == [];
    n := PutSets(sps, out, room, 0, 4);
    if n >= 0 {
      ghost var middle := out[..];
      n := PutSets(pps, out, room, n, 2);
      ghost var end := |M.SetsToUnits(store.Value(), room).k|;
      assert out[end..] == middle[end..] == old(out[..])[end..];
    }
  }

  method StoredSps(store: A.AvcStore) returns (us: seq<bytes>)
    requires store.Layout()
    ensures us == store.Value().sps
  {
    us := [];
    for i := 0 to store.nbSps
      invariant us == store.Value().sps[..i]
    {
      us := us + [store.data[store.sps[i].start..store.sps[i].End()]];
    }
  }

  method StoredPps(store: A.AvcStore) returns (us: seq<bytes>)
    requires store.Layout()
    ensures us == store.Value().pps
  {
    us := [];
    for i := 0 to store.nbPps
      invariant us == store.Value().pps[..i]
    {
      us := us + [store.data[store.pps[i].start..store.pps[i].End()]];
    }
  }

  method SizeOfSets(store: A.AvcStore) returns (n: nat)
    requires store.Layout()
    ensures n == M.StoreSize(store.Value())
  {
    n := 0;
    ghost var sps, pps := store.Value().sps, store.Value().pps;
    assert sps[0..] == sps && pps[0..] == pps;
    for i := 0 to store.nbSps
      invariant n + M.SetsSize(sps[i..]) == M.SetsSize(sps)
    {
      assert sps[i..][0] == sps[i] && sps[i..][1..] == sps[i + 1..];
      n := n + store.sps[i].len + 4;
    }
    for i := 0 to store.nbPps
      invariant n + M.SetsSize(pps[i..]) == M.SetsSize(sps) + M.SetsSize(pps)
    {
      assert pps[i..][0] == pps[i] && pps[i..][1..] == pps[i + 1..];
      n := n + store.pps[i].len + 4;
    }
  }

  // The converter's handle: the output buffer with its fill, and its flags.
  class Handle {
    const store: A.AvcStore
    const out: array<byte>
    const room: nat
    var count: nat
    var seen: bool
    var err: int

    constructor (store: A.AvcStore, out: array<byte>, room: nat)
      ensures this.store == store && this.out == out && this.room == room && count == 0 && !seen && err == 0
    {
      this.store, this.out, this.room := store, out, room;
      count, seen, err := 0, false, 0;
    }

    ghost predicate Valid()
      reads this, out, store, store.data, store.sps, store.pps
    {
      && store.Layout() && out != store.data
      && count <= out.Length && room <= out.Length && M.SetsInside(store.Value(), room, out.Length)
    }

    ghost function Value(): M.Demuxer
      reads this, out
    {
      M.Demuxer(out[..], room, count, seen, err)
    }

    method Emit(nalu: bytes)
      requires Valid()
      modifies this, out
      ensures Valid() && store.Value() == old(store.Value()) && Value() == M.Emit(old(Value()), nalu)
    {
      hide M.SetsInside;
      ghost var v := store.Value();
      if count + |nalu| + 4 > room { err := -M.E2BIG; return; }
      CopyOver(out, count, START_CODE + nalu);
      count := count + 4 + |nalu|;
    }

    method Insert()
      requires Valid()
      modifies this, out
      ensures Valid() && store.Value() == old(store.Value()) && Value() == M.Insert(store.Value(), old(Value()))
    {
      hide M.SetsInside, M.SetsToUnits, M.StoreSize;
      if count > 0 {
        var n := SizeOfSets(store);
        if n + count > room { err := -M.E2BIG; return; }
        CopyOver(out, n, out[..count]);
      }
      ghost var moved := out[..];
      M.SetsShorter(store.Value(), room);
      var k := WriteStoredSets(store, out, room);
      ghost var w := M.SetsToUnits(store.Value(), room);
      assert out[..] == Written(moved, 0, w.k);
      if k <= 0 { err := if k == 0 then -M.EINVAL else k; return; }
      count, seen := count + k, true;
    }

    method Take(nalu: bytes)
      requires Valid() && nalu != []
      modifies this, out
      ensures Valid() && store.Value() == old(store.Value())
      ensures Value() == M.OnPrefixed(store.Value(), old(Value()), nalu)
    {
      hide M.SetsInside, M.Insert, M.Emit;
      var kind := nalu[0] % 32;
      if kind == S.NAL_SPS || kind == S.NAL_PPS {
        seen := true;
      } else if kind == S.NAL_IDR && !seen {
        Insert();
        if !seen { return; }
      }
      Emit(nalu);
    }
  }

  method TakeAll(h: Handle, us: seq<bytes>)
    requires h.Valid() && forall i :: 0 <= i < |us| ==> us[i] != []
    modifies h, h.out
    ensures h.Valid() && h.store.Value() == old(h.store.Value())
    ensures h.Value() == M.OnAllPrefixed(h.store.Value(), old(h.Value()), us)
  {
    hide M.OnPrefixed, M.SetsInside;
    ghost var d := h.Value();
    assert us[0..] == us;
    for i := 0 to |us|
      invariant h.Valid() && h.store.Value() == old(h.store.Value())
      invariant M.OnAllPrefixed(h.store.Value(), d, us) == M.OnAllPrefixed(h.store.Value(), h.Value(), us[i..])
    {
      assert us[i..][0] == us[i] && us[i..][1..] == us[i + 1..];
      h.Take(us[i]);
    }
  }

  // `room` is the size of the output as the caller gives it; `out` is longer only where the stored sets overrun it.
  method Mp4ToAnnexB(store: A.AvcStore, size: nat, data: bytes, out: array<byte>, room: nat) returns (r: int)
    requires store.Layout() && out != store.data && size <= 4 && |data| < 0x8000_0000
    requires room <= out.Length && M.SetsInside(store.Value(), room, out.Length) && !M.Stuck(size, data)
    modifies out
    ensures var v := M.ToAnnexB(old(store.Value()), size, data, old(out[..]), room);
            r == v.result && (r != -M.EINVAL ==> out[..] == v.buf)
  {
    hide M.SetsInside, M.OnPrefixed;
    var h := new Handle(store, out, room);
    var src := data;
    ghost var v, d := store.Value(), h.Value();
    while |src| > size
      invariant h.Valid() && h.out == out && h.room == room && h.store == store && store.Value() == v && !M.Stuck(size, src)
      invariant |src| <= |data|
      invariant M.Walk(v, size, d, data) == M.Walk(v, size, h.Value(), src)
      decreases |src|
    {
      var n := ReadLength(src, size);
      if size == 0 || (n == 1 && size >= 3) {
        M.UnitsOrdinary(src);
        var us := SplitUnits(src);
        TakeAll(h, us);
        return if h.err == 0 then h.count else 0;
      }
      if n == 0 || size + n > |src| { return -M.EINVAL; }
      h.Take(src[size..size + n]);
      src := src[size + n..];
    }
    r := if h.err == 0 then h.count else 0;
  }
}
