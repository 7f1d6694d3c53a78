/** Writing and reading AVC decoder configuration records, with running positions and an arena for the sets. */
module AvcRecordCodec {
  import opened Bytes
  import opened Arena
  import opened AvcRecord
  import opened Options

  method CopyTo(data: array<byte>, at: nat, from: bytes)
    requires at + |from| <= data.Length
    modifies data
    ensures data[..at + |from|] == old(data[..at]) + from
    ensures forall i :: at + |from| <= i < data.Length ==> data[i] == old(data[i])
  {
    forall i | 0 <= i < |from| { data[at + i] := from[i]; }
  }

  lemma {:induction false} UnitsMore(us: seq<bytes>, i: nat)
    requires AllShort(us) && i < |us|
    ensures AllShort(us[i..]) && AllShort(us[i + 1..]) && |us[i]| < 0x1_0000
    ensures Units(us[i..]) == Be16(|us[i]|) + us[i] + Units(us[i + 1..])
    decreases i
  {
    hide Be16;
    if i > 0 {
      UnitsMore(us[1..], i - 1);
      assert us[1..][i - 1..] == us[i..] && us[1..][i..] == us[i + 1..];
    } else {
      assert us[0..] == us;
    }
  }

  // One list of sets, each behind its length, as long as there is room.
  method SaveUnits(us: seq<bytes>, data: array<byte>, from: nat, room: nat) returns (ok: bool, p: nat, left: nat)
    requires AllShort(us) && from + room <= data.Length
    modifies data
    ensures ok <==> |Units(us)| <= room
    ensures ok ==> p == from + |Units(us)| && left == room - |Units(us)| && p + left <= data.Length
    ensures ok ==> data[..p] == old(data[..from]) + Units(us)
    ensures forall i :: (if ok then p else from + room) <= i < data.Length ==> data[i] == old(data[i])
  {
    hide Units, Be16, AllShort;
    p, left := from, room;
    var i := 0;
    ghost var done: bytes := [];
    assert us[0..] == us && [] + Units(us) == Units(us);
    while i < |us| && left >= |us[i]| + 2
      invariant i <= |us| && AllShort(us[i..]) && done + Units(us[i..]) == Units(us)
      invariant p == from + |done| && left == room - |done|
      invariant data[..p] == old(data[..from]) + done
      invariant forall i :: p <= i < data.Length ==> data[i] == old(data[i])
    {
      UnitsMore(us, i);
      Joined(old(data[..from]), done, Be16(|us[i]|), us[i], Units(us[i + 1..]));
      CopyTo(data, p, Be16(|us[i]|));
      CopyTo(data, p + 2, us[i]);
      done := done + (Be16(|us[i]|) + us[i]);
      p := p + 2 + |us[i]|;
      left := left - (|us[i]| + 2);
      i := i + 1;
    }
    ok := i == |us|;
    NoMore(us);
    if ok { assert done + [] == done; } else { UnitsMore(us, i); }
  }

  lemma {:induction false} Joined(a: bytes, done: bytes, head: bytes, u: bytes, rest: bytes)
    ensures a + done + head + u == a + (done + (head + u))
    ensures done + (head + u + rest) == done + (head + u) + rest
  {
  }

  lemma {:induction false} NoMore(us: seq<bytes>)
    ensures us[|us|..] == [] && Units([]) == []
  {
  }

  // All but the extension.
  function Body(r: Record): bytes
    requires Valid(r)
  {
    Head(r) + Units(r.sps) + ([|r.pps|] + Units(r.pps))
  }

  lemma {:induction false} SavedBody(r: Record, room: nat)
    requires Valid(r)
    ensures |Body(r)| == 7 + |Units(r.sps)| + |Units(r.pps)| && |Extension(r)| == 4
    ensures Saved(r, room) == if room < |Body(r)| then None
                              else Some(if HighProfile(r.profile) && room >= |Body(r)| + 4 then Body(r) + Extension(r) else Body(r))
  {
    hide Units, Head, HighProfile;
    assert Head(r) + Sets(r) == Body(r) && Body(r) + [] == Body(r);
  }

  method SaveBody(r: Record, data: array<byte>, room: nat) returns (ok: bool, p: nat)
    requires Valid(r) && room <= data.Length
    modifies data
    ensures ok <==> |Body(r)| <= room
    ensures ok ==> p == |Body(r)| && data[..p] == Body(r)
    ensures forall i :: (if ok then p else room) <= i < data.Length ==> data[i] == old(data[i])
  {
    hide Units, AllShort, Head;
    p := 0;
    if room < 7 || |r.sps| > MAX_SPS { return false, 0; }
    CopyTo(data, 0, Head(r));
    var left;
    ok, p, left := SaveUnits(r.sps, data, 6, room - 7);
    if !ok { return; }
    ghost var front := data[..p];
    data[p] := |r.pps|;
    assert data[..p + 1] == front + [|r.pps|];
    ok, p, left := SaveUnits(r.pps, data, p + 1, left);
    assert front + [|r.pps|] + Units(r.pps) == front + ([|r.pps|] + Units(r.pps));
  }

  // The record at the front of a buffer; the length written, or -1.
  method Save(r: Record, data: array<byte>, room: nat) returns (n: int)
    requires Valid(r) && room <= data.Length
    modifies data
    ensures n == if Saved(r, room) == None then -1 else |Saved(r, room).value|
    ensures n >= 0 ==> data[..n] == Saved(r, room).value
    ensures forall i :: (if n >= 0 then n else room) <= i < data.Length ==> data[i] == old(data[i])
  {
    SavedBody(r, room);
    hide Body, Extension, Saved, HighProfile;
    var ok, p := SaveBody(r, data, room);
    if !ok { return -1; }
    if room - p >= 4 && HighProfile(r.profile) {
      CopyTo(data, p, Extension(r));
      p := p + 4;
    }
    n := p;
  }

  // ---------------------------------------------------------------------------
  // Loading

  // The slices follow each other from `from` to `end`.
  predicate Consecutive(ss: seq<Slice>, from: nat, end: nat) {
    if ss == [] then from == end
    else ss[|ss| - 1].End() == end && Consecutive(ss[..|ss| - 1], from, ss[|ss| - 1].start)
  }

  lemma {:induction false} ConsecutiveSnoc(ss: seq<Slice>, from: nat, at: nat, len: nat)
    requires Consecutive(ss, from, at)
    ensures Consecutive(ss + [Slice(at, len)], from, at + len)
  {
    assert (ss + [Slice(at, len)])[..|ss|] == ss;
  }

  lemma {:induction false} ConsecutiveBelow(ss: seq<Slice>, from: nat, end: nat)
    requires Consecutive(ss, from, end)
    ensures from <= end && forall k :: 0 <= k < |ss| ==> from <= ss[k].start && ss[k].End() <= end
    decreases |ss|
  {
    if ss != [] {
      var init := ss[..|ss| - 1];
      ConsecutiveBelow(init, from, ss[|ss| - 1].start);
      assert forall k :: 0 <= k < |init| ==> ss[k] == init[k];
    }
  }

  function Prefixed(done: seq<bytes>, p: Option<Part>): Option<Part> {
    match p case None => None case Some(x) => Some(x.(units := done + x.units))
  }

  lemma {:induction false} PrefixedCons(done: seq<bytes>, u: bytes, p: Option<Part>)
    ensures Prefixed(done, Cons(u, p)) == Prefixed(done + [u], p)
  {
    if p.Some? { assert done + ([u] + p.value.units) == done + [u] + p.value.units; }
  }

  lemma {:induction false} PrefixedEnds(done: seq<bytes>, p: Option<Part>)
    ensures p.Some? ==> Prefixed([], p) == p && (p.value.units == [] ==> Prefixed(done, p) == Some(p.value.(units := done)))
    ensures p == None ==> Prefixed(done, p) == None
  {
    if p.Some? { assert [] + p.value.units == p.value.units && done + [] == done; }
  }

  // What the loop does at position `j`.
  lemma {:induction false} LoadAt(data: bytes, j: nat, count: nat, used: nat, behind: nat)
    requires j <= |data|
    ensures LoadUnits(data[j..], count, used, behind) ==
      if count == 0 || j + 2 >= |data| then Some(Part([], data[j..], used))
      else
        var len := Read16(data[j..j + 2]);
        if j + 2 + len + behind > |data| || used + len > ARENA then None
        else Cons(data[j + 2..j + 2 + len], LoadUnits(data[j + 2 + len..], count - 1, used + len, behind))
  {
    hide Read16, Cons;
    var d := data[j..];
    if count > 0 && j + 2 < |data| {
      assert d[..2] == data[j..j + 2];
      var len := Read16(data[j..j + 2]);
      if j + 2 + len + behind <= |data| { assert d[2..2 + len] == data[j + 2..j + 2 + len] && d[2 + len..] == data[j + 2 + len..]; }
    }
  }

  predicate Inside(ss: seq<Slice>, end: nat) { forall k :: 0 <= k < |ss| ==> ss[k].End() <= end }

  lemma {:induction false} Cut(a: bytes, end: nat, x: nat, y: nat)
    requires x <= y <= end <= |a|
    ensures a[..end][x..y] == a[x..y]
  {
  }

  lemma {:induction false} ContentsBelow(a: bytes, b: bytes, ss: seq<Slice>, end: nat)
    requires end <= |a| && end <= |b| && a[..end] == b[..end] && Inside(ss, end)
    ensures Contents(a, ss) == Contents(b, ss)
  {
    forall k | 0 <= k < |ss| ensures Content(a, ss[k]) == Content(b, ss[k]) {
      Cut(a, end, ss[k].start, ss[k].End());
      Cut(b, end, ss[k].start, ss[k].End());
    }
  }

  lemma {:induction false} ContentsAppend(a: bytes, b: bytes, ss: seq<Slice>, p: nat, u: bytes)
    requires p <= |a| && p + |u| <= |b| && Inside(ss, p) && b[..p + |u|] == a[..p] + u
    ensures Contents(b, ss + [Slice(p, |u|)]) == Contents(a, ss) + [u]
  {
    assert a[..p] == (a[..p] + u)[..p] && b[..p] == b[..p + |u|][..p];
    assert b[p..p + |u|] == b[..p + |u|][p..];
    ContentsBelow(a, b, ss, p);
    forall k | 0 <= k <= |ss| ensures Contents(b, ss + [Slice(p, |u|)])[k] == (Contents(a, ss) + [u])[k] {
      if k < |ss| { assert Contents(b, ss)[k] == Contents(a, ss)[k]; }
    }
  }

  // Copy a new unit behind the others.
  method AppendUnit(arena: array<byte>, units: seq<Slice>, from: nat, p: nat, u: bytes) returns (more: seq<Slice>)
    requires Consecutive(units, from, p) && from <= p && p + |u| <= arena.Length && Inside(units, arena.Length)
    modifies arena
    ensures more == units + [Slice(p, |u|)] && Consecutive(more, from, p + |u|) && Inside(more, arena.Length)
    ensures Contents(arena[..], more) == old(Contents(arena[..], units)) + [u]
    ensures arena[..from] == old(arena[..from])
  {
    hide Consecutive;
    ConsecutiveBelow(units, from, p);
    ConsecutiveSnoc(units, from, p, |u|);
    ghost var before := arena[..];
    CopyTo(arena, p, u);
    more := units + [Slice(p, |u|)];
    assert arena[..][..p + |u|] == before[..p] + u;
    ContentsAppend(before, arena[..], units, p, u);
    assert arena[..from] == (before[..p] + u)[..from] == before[..from];
  }

  method LoadSets(data: bytes, start: nat, count: nat, arena: array<byte>, from: nat, behind: nat)
    returns (ok: bool, units: seq<Slice>, j: nat, p: nat)
    requires arena.Length == ARENA && from <= ARENA && start <= |data| && behind <= 1
    modifies arena
    ensures arena[..from] == old(arena[..from])
    ensures ok <==> LoadUnits(data[start..], count, from, behind).Some?
    ensures ok ==> from <= p <= ARENA && Consecutive(units, from, p) && start <= j <= |data|
    ensures ok ==> Inside(units, ARENA)
    ensures ok ==> LoadUnits(data[start..], count, from, behind) == Some(Part(Contents(arena[..], units), data[j..], p))
  {
    hide LoadUnits, Read16, Prefixed, Cons, Consecutive;
    units, j, p, ok := [], start, from, false;
    ghost var goal, done := LoadUnits(data[start..], count, from, behind), [];
    var i := 0;
    PrefixedEnds([], goal);
    NoneConsecutive(from);
    while i < count && j + 2 < |data|
      invariant i <= count && start <= j <= |data| && from <= p <= ARENA && Consecutive(units, from, p)
      invariant Inside(units, ARENA)
      invariant Contents(arena[..], units) == done && arena[..from] == old(arena[..from])
      invariant goal == Prefixed(done, LoadUnits(data[j..], count - i, p, behind))
    {
      LoadAt(data, j, count - i, p, behind);
      PrefixedEnds(done, None);
      var len := Read16(data[j..j + 2]);
      if j + 2 + len + behind > |data| || p + len > ARENA { return false, units, j, p; }
      PrefixedCons(done, data[j + 2..j + 2 + len], LoadUnits(data[j + 2 + len..], count - i - 1, p + len, behind));
      units := AppendUnit(arena, units, from, p, data[j + 2..j + 2 + len]);
      done := done + [data[j + 2..j + 2 + len]];
      j, p, i := j + 2 + len, p + len, i + 1;
    }
    LoadAt(data, j, count - i, p, behind);
    PrefixedEnds(done, Some(Part([], data[j..], p)));
    ok := true;
  }

  lemma {:induction false} NoneConsecutive(from: nat)
    ensures Consecutive([], from, from)
  {
  }

  // What a load leaves in the store: the sets as slices of the arena.
  datatype Store = Store(
    profile: byte, compatibility: byte, level: byte, nalu: nat, spsCount: nat, sps: seq<Slice>, ppsCount: nat,
    pps: seq<Slice>, off: nat)

  // The slices of both lists tile the front of the arena.
  method LoadRecord(data: bytes, arena: array<byte>) returns (n: int, s: Store)
    requires arena.Length == ARENA
    modifies arena
    ensures n == if Load(data) == None then -1 else Load(data).value.consumed
    ensures n >= 0 ==> Consecutive(s.sps + s.pps, 0, s.off) && s.off <= ARENA
    ensures n >= 0 ==> Inside(s.sps, ARENA) && Inside(s.pps, ARENA)
    ensures n >= 0 ==> Load(data) == Some(Loaded(s.profile, s.compatibility, s.level, s.nalu, s.spsCount,
      Contents(arena[..], s.sps), s.ppsCount, Contents(arena[..], s.pps), s.off, n))
  {
    hide LoadUnits, Consecutive;
    s := Store(0, 0, 0, 0, 0, [], 0, [], 0);
    if |data| < 7 { return -1, s; }
    s := s.(profile := data[1], compatibility := data[2], level := data[3], nalu := data[4] as nat % 4 + 1,
            spsCount := data[5] as nat % 0x20);
    var ok, sps, j, p := LoadSets(data, 6, s.spsCount, arena, 0, 1);
    if !ok || j >= |data| { return -1, s; }
    ghost var read := arena[..];
    s := s.(sps := sps, ppsCount := data[j]);
    assert data[j..][1..] == data[j + 1..];
    var pps;
    ghost var at := p;
    ok, pps, j, p := LoadSets(data, j + 1, s.ppsCount, arena, p, 0);
    if !ok { return -1, s; }
    s := s.(pps := pps, off := p);
    ConsecutiveBelow(sps, 0, at);
    ContentsBelow(read, arena[..], sps, at);
    ConsecutiveJoin(sps, pps, 0, at, p);
    n := j;
  }

  lemma {:induction false} ConsecutiveJoin(a: seq<Slice>, b: seq<Slice>, from: nat, mid: nat, end: nat)
    requires Consecutive(a, from, mid) && Consecutive(b, mid, end)
    ensures Consecutive(a + b, from, end)
    decreases |b|
  {
    if b == [] {
      assert a + b == a;
    } else {
      ConsecutiveJoin(a, b[..|b| - 1], from, mid, b[|b| - 1].start);
      assert (a + b)[..|a + b| - 1] == a + b[..|b| - 1];
    }
  }
}
