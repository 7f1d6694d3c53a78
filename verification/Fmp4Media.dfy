/** What a save writes against what was given. */
module Fmp4Media {
  import opened Bytes
  import opened Fmp4
  import opened Fmp4Buffer
  import L = Fmp4Layout

  // A held sample: what was given for it, where that was stored, and whether the buffer has grown since.
  datatype Held = Held(data: bytes, at: nat, grown: bool)

  // All bytes stored since the last save, those of dropped samples included, and the samples held of them.
  datatype Trace = Trace(laid: bytes, held: seq<Held>)

  const NOTHING_LAID := Trace([], [])

  function Below(held: seq<Held>): nat {
    if held == [] then 0 else Below(held[..|held| - 1]) + |held[|held| - 1].data|
  }

  function Given(held: seq<Held>): (b: bytes)
    ensures |b| == Below(held)
  {
    if held == [] then [] else Given(held[..|held| - 1]) + held[|held| - 1].data
  }

  function AllGiven(trs: seq<Trace>): bytes {
    if trs == [] then [] else AllGiven(trs[..|trs| - 1]) + Given(trs[|trs| - 1].held)
  }

  // ---------------------------------------------------------------------------
  // What a write does to the trace

  function AllGrown(held: seq<Held>): (r: seq<Held>)
    ensures |r| == |held|
  {
    seq(|held|, i requires 0 <= i < |held| => held[i].(grown := true))
  }

  function PutTrace(t: Track, tr: Trace, data: bytes): Trace {
    Trace(tr.laid + data, (if Grows(t, |data|) then AllGrown(tr.held) else tr.held) + [Held(data, |tr.laid|, false)])
  }

  function InsertTrace(t: Track, tr: Trace, mdat: nat, silence: bytes, count: int, dts: int): Trace
    decreases count
  {
    if count <= 0 || silence == [] then tr
    else
      InsertTrace(Timed(Put(t, mdat, silence, dts, dts)), PutTrace(t, tr, silence), mdat + |silence|, silence, count - 1,
                  dts + t.frame)
  }

  function RepairTrace(t: Track, tr: Trace, mdat: nat): Trace
    requires t.samples != [] && t.frame > 0 && InBuffer(t) && Sum(t.samples) <= mdat && Follows(t, tr)
  {
    var count := Int32(Trunc(Lost(t), t.frame));
    if t.aac && Lost(t) >= 2 * t.frame && count < MAX_REPAIR then
      LastIn(t);
      var silence := if t.silence != [] then t.silence else Data(t, t.samples[|t.samples| - 1]);
      InsertTrace(Timed(t), tr, mdat, silence, count, t.start + t.total)
    else if t.aac && Lost(t) <= -2 * t.frame && -count < MAX_REPAIR then
      DropPrefix(Timed(t), mdat, -count);
      tr.(held := tr.held[..|Drop(Timed(t), mdat, -count).0.samples|])
    else tr
  }

  function WriteTrace(t: Track, tr: Trace, mdat: nat, data: bytes, pts: int, dts: int): Trace
    requires Sane(t) && Sum(t.samples) <= mdat && Follows(t, tr) && |data| < POW32
  {
    if data == [] then tr
    else
      PutSum(t, mdat, data, pts, dts);
      PutIn(t, mdat, data, pts, dts);
      PutFollows(t, tr, mdat, data, pts, dts);
      if t.kind.Audio? then RepairTrace(Put(t, mdat, data, pts, dts), PutTrace(t, tr, data), mdat + |data|)
      else PutTrace(t, tr, data)
  }

  // ---------------------------------------------------------------------------
  // The trace explains the buffer

  // The sample is read from where it was stored, until the buffer grows; from then on from where the lengths of those
  // held in front of it add up to. Both agree unless something was dropped before it was stored.
  predicate HeldAt(samples: seq<Sample>, tr: Trace, k: nat)
    requires k < |samples| && k < |tr.held|
  {
    var h, below := tr.held[k], Below(tr.held[..k]);
    && h.data != [] && h.at + |h.data| <= |tr.laid| && tr.laid[h.at..h.at + |h.data|] == h.data
    && below <= h.at && Below(tr.held) - below <= |tr.laid| - h.at
    && samples[k].bytes == |h.data| && samples[k].data == if h.grown then below else h.at
  }

  predicate Follows(t: Track, tr: Trace) {
    && t.used == |tr.laid| <= |t.buffer| && t.buffer[..t.used] == tr.laid
    && |t.samples| == |tr.held|
    && Below(tr.held) <= |tr.laid|
    && forall k :: 0 <= k < |tr.held| ==> HeldAt(t.samples, tr, k)
  }

  lemma {:induction false} BelowGrown(held: seq<Held>)
    ensures Below(AllGrown(held)) == Below(held)
    decreases |held|
  {
    if held != [] {
      var init := held[..|held| - 1];
      assert AllGrown(held)[..|held| - 1] == AllGrown(init);
      BelowGrown(init);
    }
  }

  lemma {:induction false} BelowSnoc(held: seq<Held>, h: Held)
    ensures Below(held + [h]) == Below(held) + |h.data|
  {
    assert (held + [h])[..|held|] == held;
  }

  lemma {:induction false} SumBelow(samples: seq<Sample>, held: seq<Held>)
    requires |samples| == |held| && forall k :: 0 <= k < |held| ==> samples[k].bytes == |held[k].data|
    ensures Sum(samples) == Below(held)
    decreases |held|
  {
    if held != [] { SumBelow(samples[..|held| - 1], held[..|held| - 1]); }
  }

  lemma {:induction false} RelocatedAt(samples: seq<Sample>, k: nat)
    requires k < |samples|
    ensures Relocated(samples)[k] == samples[k].(data := Sum(samples[..k]))
    decreases |samples|
  {
    var init := samples[..|samples| - 1];
    if k < |init| {
      RelocatedAt(init, k);
      assert init[..k] == samples[..k];
    }
  }

  // What a new sample makes of a sample held before.
  lemma {:induction false} PutRecord(t: Track, mdat: nat, data: bytes, pts: int, dts: int, k: nat)
    requires data != [] && k < |t.samples|
    ensures var u := Put(t, mdat, data, pts, dts);
      && |u.samples| == |t.samples| + 1 && u.samples[k].bytes == t.samples[k].bytes
      && u.samples[k].data == if Grows(t, |data|) then Sum(t.samples[..k]) else t.samples[k].data
  {
    RelocatedAt(t.samples, k);
    hide Sum, Relocated;
  }

  lemma {:induction false} PutHeldAt(t: Track, tr: Trace, mdat: nat, data: bytes, pts: int, dts: int, k: nat)
    requires data != [] && Follows(t, tr) && k < |tr.held|
    ensures |Put(t, mdat, data, pts, dts).samples| == |tr.held| + 1
    ensures HeldAt(Put(t, mdat, data, pts, dts).samples, PutTrace(t, tr, data), k)
  {
    assert HeldAt(t.samples, tr, k);
    forall j | 0 <= j < k ensures t.samples[j].bytes == |tr.held[j].data| { assert HeldAt(t.samples, tr, j); }
    SumBelow(t.samples[..k], tr.held[..k]);
    PutRecord(t, mdat, data, pts, dts, k);
    PutHeld(t, tr, data, k);
    var h := tr.held[k];
    hide Sum, Below, AllGrown, Put, PutTrace, Follows;
    L.Front(tr.laid, data, h.at, h.at + |h.data|);
  }

  lemma {:induction false} PutHeld(t: Track, tr: Trace, data: bytes, k: nat)
    requires k < |tr.held|
    ensures var p, h := PutTrace(t, tr, data), tr.held[k];
      && |p.held| == |tr.held| + 1 && p.laid == tr.laid + data
      && p.held[k] == (if Grows(t, |data|) then h.(grown := true) else h)
      && Below(p.held[..k]) == Below(tr.held[..k]) && Below(p.held) == Below(tr.held) + |data|
  {
    BelowGrown(tr.held[..k]);
    BelowGrown(tr.held);
    assert AllGrown(tr.held)[..k] == AllGrown(tr.held[..k]);
    var p, g := PutTrace(t, tr, data), if Grows(t, |data|) then AllGrown(tr.held) else tr.held;
    hide Below;
    assert p.held[..k] == g[..k];
    BelowSnoc(g, p.held[|g|]);
  }

  lemma {:induction false} PutBuffer(t: Track, mdat: nat, data: bytes, pts: int, dts: int)
    requires data != [] && |data| < POW32 && t.used <= |t.buffer|
    ensures var u := Put(t, mdat, data, pts, dts);
      && u.used == t.used + |data| <= |u.buffer| && u.buffer[..u.used] == t.buffer[..t.used] + data
      && |u.samples| == |t.samples| + 1
      && u.samples[|t.samples|].bytes == |data| && u.samples[|t.samples|].data == t.used
  {
    hide Sum, Relocated;
  }

  lemma {:induction false} PutNew(t: Track, tr: Trace, mdat: nat, data: bytes, pts: int, dts: int)
    requires data != [] && |data| < POW32 && Follows(t, tr)
    ensures var u, p := Put(t, mdat, data, pts, dts), PutTrace(t, tr, data);
      && |u.samples| == |p.held| == |tr.held| + 1 && HeldAt(u.samples, p, |tr.held|)
      && u.used == |p.laid| <= |u.buffer| && u.buffer[..u.used] == p.laid && Below(p.held) <= |p.laid|
  {
    hide Below, AllGrown, HeldAt, Put;
    PutBuffer(t, mdat, data, pts, dts);
    var u, p := Put(t, mdat, data, pts, dts), PutTrace(t, tr, data);
    var g := if Grows(t, |data|) then AllGrown(tr.held) else tr.held;
    BelowGrown(tr.held);
    BelowSnoc(g, p.held[|g|]);
    NewHeldAt(u.samples, p, g, |tr.laid|, data);
  }

  lemma {:induction false} NewHeldAt(samples: seq<Sample>, p: Trace, held: seq<Held>, at: nat, data: bytes)
    requires |samples| == |held| + 1 && p.held == held + [Held(data, at, false)] && data != []
    requires at + |data| == |p.laid| && p.laid[at..] == data && Below(held) <= at
    requires samples[|held|].bytes == |data| && samples[|held|].data == at
    ensures HeldAt(samples, p, |held|)
  {
    BelowSnoc(held, p.held[|held|]);
    assert p.held[..|held|] == held;
  }

  lemma {:induction false} PutFollows(t: Track, tr: Trace, mdat: nat, data: bytes, pts: int, dts: int)
    requires data != [] && |data| < POW32 && Follows(t, tr)
    ensures Follows(Put(t, mdat, data, pts, dts), PutTrace(t, tr, data))
  {
    PutNew(t, tr, mdat, data, pts, dts);
    hide HeldAt, Put, PutTrace;
    var u, p := Put(t, mdat, data, pts, dts), PutTrace(t, tr, data);
    forall k | 0 <= k < |p.held| ensures HeldAt(u.samples, p, k) {
      if k < |tr.held| { PutHeldAt(t, tr, mdat, data, pts, dts, k); }
    }
  }

  // Durations and the like do not matter.
  lemma {:induction false} SameFollows(t: Track, u: Track, tr: Trace)
    requires Follows(t, tr) && u.buffer == t.buffer && u.used == t.used && |u.samples| == |t.samples|
    requires forall k :: 0 <= k < |t.samples| ==> u.samples[k].bytes == t.samples[k].bytes && u.samples[k].data == t.samples[k].data
    ensures Follows(u, tr)
  {
    hide Below;
    forall k | 0 <= k < |tr.held| ensures HeldAt(u.samples, tr, k) { assert HeldAt(t.samples, tr, k); }
  }

  lemma {:induction false} BelowPrefix(held: seq<Held>, m: nat)
    requires m <= |held|
    ensures Below(held[..m]) <= Below(held)
    ensures m < |held| && (forall k :: 0 <= k < |held| ==> held[k].data != []) ==> Below(held[..m]) < Below(held)
    decreases |held|
  {
    if m == |held| {
      assert held[..m] == held;
    } else {
      var init := held[..|held| - 1];
      BelowPrefix(init, m);
      assert init[..m] == held[..m];
    }
  }

  lemma {:induction false} DropFollows(t: Track, tr: Trace, mdat: int, count: int)
    requires Follows(t, tr)
    ensures var d := Drop(t, mdat, count).0;
      |d.samples| <= |tr.held| && Follows(d, tr.(held := tr.held[..|d.samples|]))
  {
    DropPrefix(t, mdat, count);
    var d := Drop(t, mdat, count).0;
    var m := |d.samples|;
    var cut := tr.(held := tr.held[..m]);
    BelowPrefix(tr.held, m);
    hide Below, Drop;
    forall k | 0 <= k < m ensures HeldAt(d.samples, cut, k) {
      assert HeldAt(t.samples, tr, k);
      assert cut.held[..k] == tr.held[..k] && d.samples[k] == t.samples[k];
    }
  }

  lemma {:induction false} InsertFollows(t: Track, tr: Trace, mdat: nat, silence: bytes, count: int, dts: int)
    requires Follows(t, tr) && |silence| < POW32
    ensures Follows(Insert(t, mdat, silence, count, dts).track, InsertTrace(t, tr, mdat, silence, count, dts))
    decreases count
  {
    hide Follows, Put, PutTrace;
    if count > 0 && silence != [] {
      var u, p := Put(t, mdat, silence, dts, dts), PutTrace(t, tr, silence);
      PutFollows(t, tr, mdat, silence, dts, dts);
      PutLast(t, mdat, silence, dts, dts);
      TimedFollows(u, p);
      PutKeepsFormat(t, mdat, silence, dts, dts);
      InsertFollows(Timed(u), p, mdat + |silence|, silence, count - 1, dts + t.frame);
    }
  }

  lemma {:induction false} TimedFollows(t: Track, tr: Trace)
    requires Follows(t, tr) && t.samples != []
    ensures Follows(Timed(t), tr)
  {
    hide Below;
    SameFollows(t, Timed(t), tr);
  }

  lemma {:induction false} SpacedFollows(t: Track, tr: Trace)
    requires Follows(t, tr) && t.samples != []
    ensures Follows(Spaced(t), tr)
  {
    hide Below;
    SameFollows(t, Spaced(t), tr);
  }

  lemma {:induction false} GapFollows(t: Track, tr: Trace, mdat: nat)
    requires t.samples != [] && t.frame > 0 && InBuffer(t) && Sum(t.samples) <= mdat && Follows(t, tr)
    requires |t.silence| < POW32 && t.samples[|t.samples| - 1].bytes < POW32
    requires t.aac && Lost(t) >= 2 * t.frame
    ensures Follows(Repaired(t, mdat).track, RepairTrace(t, tr, mdat))
  {
    LastIn(t);
    TimedFollows(t, tr);
    hide Follows, Timed, Drop, Insert, InsertTrace, Lost, Trunc, Int32, Sum, InBuffer;
    var count := Int32(Trunc(Lost(t), t.frame));
    if count < MAX_REPAIR {
      var silence := if t.silence != [] then t.silence else Data(t, t.samples[|t.samples| - 1]);
      InsertFollows(Timed(t), tr, mdat, silence, count, t.start + t.total);
    }
  }

  lemma {:induction false} OverlapFollows(t: Track, tr: Trace, mdat: nat)
    requires t.samples != [] && t.frame > 0 && InBuffer(t) && Sum(t.samples) <= mdat && Follows(t, tr)
    requires !(t.aac && Lost(t) >= 2 * t.frame)
    ensures Follows(Repaired(t, mdat).track, RepairTrace(t, tr, mdat))
  {
    TimedFollows(t, tr);
    hide Follows, Timed, Drop, Insert, InsertTrace, Lost, Trunc, Int32, Sum, InBuffer;
    var count := Int32(Trunc(Lost(t), t.frame));
    if t.aac && Lost(t) <= -2 * t.frame && -count < MAX_REPAIR {
      DropFollows(Timed(t), tr, mdat, -count);
    }
  }

  lemma {:induction false} RepairFollows(t: Track, tr: Trace, mdat: nat)
    requires t.samples != [] && t.frame > 0 && InBuffer(t) && Sum(t.samples) <= mdat && Follows(t, tr)
    requires |t.silence| < POW32 && t.samples[|t.samples| - 1].bytes < POW32
    ensures Follows(Repaired(t, mdat).track, RepairTrace(t, tr, mdat))
  {
    hide *;
    if t.aac && Lost(t) >= 2 * t.frame {
      GapFollows(t, tr, mdat);
    } else {
      OverlapFollows(t, tr, mdat);
    }
  }

  lemma {:induction false} WriteFollows(t: Track, tr: Trace, mdat: nat, data: bytes, pts: int, dts: int)
    requires Sane(t) && Sum(t.samples) <= mdat && Follows(t, tr) && |data| < POW32
    ensures Follows(WriteTrack(t, mdat, data, pts, dts).track, WriteTrace(t, tr, mdat, data, pts, dts))
  {
    hide Follows, Put, PutTrace, Repaired, RepairTrace, Spaced, Sum, InBuffer;
    if data != [] {
      var u := Put(t, mdat, data, pts, dts);
      PutSum(t, mdat, data, pts, dts);
      PutIn(t, mdat, data, pts, dts);
      PutKeepsFormat(t, mdat, data, pts, dts);
      PutLast(t, mdat, data, pts, dts);
      PutFollows(t, tr, mdat, data, pts, dts);
      match t.kind
      case Audio => RepairFollows(u, PutTrace(t, tr, data), mdat + |data|);
      case Video => SpacedFollows(u, PutTrace(t, tr, data));
      case Other =>
    }
  }

  // ---------------------------------------------------------------------------
  // What a save reads

  // Stored after a drop, and then found again by the lengths of the samples in front when the buffer grew.
  predicate Moved(tr: Trace, k: nat)
    requires k < |tr.held|
  {
    tr.held[k].grown && Below(tr.held[..k]) < tr.held[k].at
  }

  // The bytes found there happen to be the same.
  predicate Repeated(tr: Trace, k: nat)
    requires k < |tr.held|
  {
    var below, n := Below(tr.held[..k]), |tr.held[k].data|;
    below + n <= |tr.laid| && tr.laid[below..below + n] == tr.held[k].data
  }

  predicate Right(tr: Trace) {
    forall k :: 0 <= k < |tr.held| ==> !Moved(tr, k) || Repeated(tr, k)
  }

  lemma {:induction false} ReadIs(t: Track, tr: Trace, k: nat)
    requires Follows(t, tr) && k < |tr.held|
    ensures |t.samples| == |tr.held| && t.used <= |t.buffer|
    ensures var s := t.samples[k];
      && s.bytes == |tr.held[k].data| && s.data + s.bytes <= t.used
      && (t.buffer[s.data..s.data + s.bytes] == tr.held[k].data <==> !Moved(tr, k) || Repeated(tr, k))
  {
    hide Below;
    assert HeldAt(t.samples, tr, k);
    var s := t.samples[k];
    FrontSlice(t.buffer, t.used, s.data, s.data + s.bytes);
  }

  lemma {:induction false} FrontSlice(buffer: bytes, used: nat, from: nat, to: nat)
    requires from <= to <= used <= |buffer|
    ensures buffer[..used][from..to] == buffer[from..to]
  {
    var x, y := buffer[..used][from..to], buffer[from..to];
    assert forall i :: 0 <= i < |y| ==> x[i] == y[i];
  }

  lemma {:induction false} SameParts(a: bytes, x: bytes, b: bytes, y: bytes)
    requires |a| == |b|
    ensures a + x == b + y <==> a == b && x == y
  {
    var l, r := a + x, b + y;
    assert l[..|a|] == a && l[|a|..] == x;
    assert r[..|b|] == b && r[|b|..] == y;
  }

  predicate Fits(s: Sample, h: Held, used: nat) { s.bytes == |h.data| && s.data + s.bytes <= used }

  predicate Reads(buffer: bytes, s: Sample, h: Held) {
    s.data + s.bytes <= |buffer| && buffer[s.data..s.data + s.bytes] == h.data
  }

  lemma {:induction false} Parts(buffer: bytes, samples: seq<Sample>, held: seq<Held>, used: nat)
    requires |samples| == |held| && used <= |buffer|
    requires forall k :: 0 <= k < |held| ==> Fits(samples[k], held[k], used)
    ensures SamplesIn(samples, |buffer|) && Sum(samples) == Below(held)
    ensures L.Payload(buffer, samples) == Given(held) <==> forall k :: 0 <= k < |held| ==> Reads(buffer, samples[k], held[k])
    decreases |held|
  {
    if held != [] {
      var n := |held| - 1;
      var s, h := samples[n], held[n];
      assert Fits(s, h, used);
      Parts(buffer, samples[..n], held[..n], used);
      SameParts(L.Payload(buffer, samples[..n]), buffer[s.data..s.data + s.bytes], Given(held[..n]), h.data);
      hide Fits, Reads, SamplesIn, Sum, Below, L.Payload, Given;
      AllButLast(buffer, samples, held);
    }
  }

  lemma {:induction false} AllButLast(buffer: bytes, samples: seq<Sample>, held: seq<Held>)
    requires |samples| == |held| > 0
    ensures var n := |held| - 1;
      (forall k :: 0 <= k < |held| ==> Reads(buffer, samples[k], held[k])) <==>
        Reads(buffer, samples[n], held[n]) && forall k :: 0 <= k < n ==> Reads(buffer, samples[..n][k], held[..n][k])
  {
    hide Reads;
    var n := |held| - 1;
    assert forall k :: 0 <= k < n ==> samples[..n][k] == samples[k] && held[..n][k] == held[k];
  }

  lemma {:induction false} WholeTrack(t: Track, tr: Trace)
    requires Follows(t, tr)
    ensures SamplesIn(t.samples, |t.buffer|) && Sum(t.samples) == |Given(tr.held)|
    ensures L.Payload(t.buffer, t.samples) == Given(tr.held) <==> Right(tr)
  {
    forall k | 0 <= k < |tr.held|
      ensures Fits(t.samples[k], tr.held[k], t.used)
      ensures Reads(t.buffer, t.samples[k], tr.held[k]) <==> !Moved(tr, k) || Repeated(tr, k)
    {
      ReadIs(t, tr, k);
    }
    Parts(t.buffer, t.samples, tr.held, t.used);
    hide Fits, Reads, Moved, Repeated;
  }

  predicate AllFollow(tracks: seq<Track>, trs: seq<Trace>) {
    |trs| == |tracks| && forall i :: 0 <= i < |trs| ==> Follows(tracks[i], trs[i])
  }

  predicate AllRight(trs: seq<Trace>) { forall i :: 0 <= i < |trs| ==> Right(trs[i]) }

  lemma {:induction false} AllMedia(tracks: seq<Track>, trs: seq<Trace>)
    requires AllFollow(tracks, trs)
    ensures L.AllIn(tracks) && |L.AllPayload(tracks)| == |AllGiven(trs)|
    ensures L.AllPayload(tracks) == AllGiven(trs) <==> AllRight(trs)
    decreases |trs|
  {
    hide Follows, Right, SamplesIn, Given, L.Payload;
    forall i | 0 <= i < |tracks| ensures SamplesIn(tracks[i].samples, |tracks[i].buffer|) { WholeTrack(tracks[i], trs[i]); }
    if trs != [] {
      var n := |trs| - 1;
      AllMedia(tracks[..n], trs[..n]);
      WholeTrack(tracks[n], trs[n]);
      RightInit(trs);
      SameParts(L.AllPayload(tracks[..n]), L.Payload(tracks[n].buffer, tracks[n].samples), AllGiven(trs[..n]), Given(trs[n].held));
    }
  }

  lemma {:induction false} RightInit(trs: seq<Trace>)
    requires trs != []
    ensures AllRight(trs) <==> AllRight(trs[..|trs| - 1]) && Right(trs[|trs| - 1])
  {
    hide Right;
    var n := |trs| - 1;
    assert forall i :: 0 <= i < n ==> trs[..n][i] == trs[i];
  }

  // ---------------------------------------------------------------------------
  // Whole runs

  function StepTraces(w: Writer, trs: seq<Trace>, op: L.Op): seq<Trace>
    requires Sound(w) && AllFollow(w.tracks, trs) && (op.Put? ==> |op.data| < POW32)
  {
    match op
    case Put(idx, data, pts, dts) =>
      if idx < 0 || idx >= |w.tracks| then trs
      else
        TotalAt(w.tracks, idx);
        trs[idx := WriteTrace(w.tracks[idx], trs[idx], w.mdat, data, pts, dts)]
    case Close(_) => if w.mdat < 1 then trs else seq(|trs|, i => NOTHING_LAID)
  }

  lemma {:induction false} EmptiedFollows(t: Track)
    requires t.samples == [] && t.used == 0
    ensures Follows(t, NOTHING_LAID)
  {
  }

  lemma {:induction false} SavedEmpty(w: Writer, next: int, i: nat)
    requires Sound(w) && w.mdat >= 1 && i < |w.tracks|
    ensures var u := L.Save(w, next).w; |u.tracks| == |w.tracks| && u.tracks[i].samples == [] && u.tracks[i].used == 0
  {
    hide L.AllPlaced, L.AllClosed, L.AllPayload;
  }

  lemma {:induction false} StepFollows(w: Writer, trs: seq<Trace>, op: L.Op)
    requires Sound(w) && Balanced(w) && AllFollow(w.tracks, trs) && (op.Put? ==> |op.data| < POW32)
    ensures AllFollow(L.Step(w, op).tracks, StepTraces(w, trs, op))
  {
    hide Follows, WriteTrace, WriteTrack, Sane, Total, Sum;
    match op
    case Put(idx, data, pts, dts) =>
      if 0 <= idx < |w.tracks| {
        TotalAt(w.tracks, idx);
        WriteFollows(w.tracks[idx], trs[idx], w.mdat, data, pts, dts);
      }
    case Close(next) =>
      hide L.Save;
      if w.mdat < 1 {
        NothingSaved(w, next);
      } else {
        var u := L.Save(w, next).w;
        forall i | 0 <= i < |trs| ensures |u.tracks| == |trs| && Follows(u.tracks[i], NOTHING_LAID) {
          SavedEmpty(w, next, i);
          EmptiedFollows(u.tracks[i]);
        }
        SavedAll(w, next);
      }
  }

  lemma {:induction false} NothingSaved(w: Writer, next: int)
    requires Sound(w) && w.mdat < 1
    ensures L.Save(w, next) == L.Saved(w, [])
  {
  }

  lemma {:induction false} SavedAll(w: Writer, next: int)
    requires Sound(w) && w.mdat >= 1
    ensures |L.Save(w, next).w.tracks| == |w.tracks| && L.AllIn(w.tracks) && L.Save(w, next).media == L.AllPayload(w.tracks)
  {
    hide L.AllPlaced, L.AllClosed, L.AllPayload;
    L.AllInBuffers(w.tracks);
  }

  function RunTraces(w: Writer, trs: seq<Trace>, ops: seq<L.Op>): seq<Trace>
    requires Sound(w) && Balanced(w) && L.AllShort(ops) && AllFollow(w.tracks, trs)
    decreases |ops|
  {
    if ops == [] then trs
    else
      L.StepBalanced(w, ops[0]);
      StepFollows(w, trs, ops[0]);
      RunTraces(L.Step(w, ops[0]), StepTraces(w, trs, ops[0]), ops[1..])
  }

  lemma {:induction false} RunFollows(w: Writer, trs: seq<Trace>, ops: seq<L.Op>)
    requires Sound(w) && Balanced(w) && L.AllShort(ops) && AllFollow(w.tracks, trs)
    ensures AllFollow(L.Run(w, ops).tracks, RunTraces(w, trs, ops))
    decreases |ops|
  {
    hide Sound, Balanced, AllFollow, L.Step, StepTraces;
    if ops != [] {
      L.StepBalanced(w, ops[0]);
      StepFollows(w, trs, ops[0]);
      RunFollows(L.Step(w, ops[0]), StepTraces(w, trs, ops[0]), ops[1..]);
    }
  }

  // After every run of writes, repairs and saves the next save writes, track after track, exactly the bytes given for
  // the samples it holds, unless some sample was moved away from its bytes and found others.
  lemma {:induction false} SavedIsGiven(w: Writer, trs: seq<Trace>, ops: seq<L.Op>, next: int)
    requires Sound(w) && Balanced(w) && L.AllShort(ops) && AllFollow(w.tracks, trs)
    ensures L.Save(L.Run(w, ops), next).media == AllGiven(RunTraces(w, trs, ops)) <==> AllRight(RunTraces(w, trs, ops))
  {
    hide L.Run, RunTraces, AllFollow, AllRight, L.Save;
    RunFollows(w, trs, ops);
    var v, r := L.Run(w, ops), RunTraces(w, trs, ops);
    AllMedia(v.tracks, r);
    if v.mdat < 1 { NothingSaved(v, next); } else { SavedAll(v, next); }
  }

  // ---------------------------------------------------------------------------
  // Without drops

  predicate Dropless(tr: Trace) { Below(tr.held) == |tr.laid| }

  lemma {:induction false} DroplessRight(t: Track, tr: Trace)
    requires Follows(t, tr) && Dropless(tr)
    ensures Right(tr)
  {
    hide Below, Repeated;
    forall k | 0 <= k < |tr.held| ensures !Moved(tr, k) { assert HeldAt(t.samples, tr, k); }
  }

  lemma {:induction false} PutDropless(t: Track, tr: Trace, data: bytes)
    ensures Dropless(PutTrace(t, tr, data)) <==> Dropless(tr)
  {
    BelowGrown(tr.held);
    BelowSnoc(if Grows(t, |data|) then AllGrown(tr.held) else tr.held, Held(data, |tr.laid|, false));
  }

  lemma {:induction false} InsertDropless(t: Track, tr: Trace, mdat: nat, silence: bytes, count: int, dts: int)
    ensures Dropless(InsertTrace(t, tr, mdat, silence, count, dts)) <==> Dropless(tr)
    ensures |Insert(t, mdat, silence, count, dts).track.samples| >= |t.samples|
    decreases count
  {
    hide Dropless, PutTrace, Put;
    if count > 0 && silence != [] {
      PutDropless(t, tr, silence);
      var u := Put(t, mdat, silence, dts, dts);
      PutCount(t, mdat, silence, dts, dts);
      InsertDropless(Timed(u), PutTrace(t, tr, silence), mdat + |silence|, silence, count - 1, dts + t.frame);
    }
  }

  lemma {:induction false} PutCount(t: Track, mdat: nat, data: bytes, pts: int, dts: int)
    requires data != []
    ensures |Put(t, mdat, data, pts, dts).samples| == |t.samples| + 1
  {
  }

  lemma {:induction false} CutDropless(t: Track, tr: Trace, m: nat)
    requires Follows(t, tr) && Dropless(tr)
    ensures |t.samples| == |tr.held|
    ensures m <= |tr.held| ==> (Dropless(tr.(held := tr.held[..m])) <==> m == |tr.held|)
  {
    forall k | 0 <= k < |tr.held| ensures tr.held[k].data != [] { assert HeldAt(t.samples, tr, k); }
    hide HeldAt, Below;
    if m <= |tr.held| {
      BelowPrefix(tr.held, m);
      if m == |tr.held| { assert tr.held[..m] == tr.held; }
    }
  }

  // The repair after this write drops samples: a frame of AAC that comes two frames or more too early, but not 4096.
  predicate Drops(t: Track, dts: int)
    requires t.kind.Audio? ==> t.frame > 0
  {
    var at := Trunc(dts * t.timescale, 1000);
    var lost := at - ((if t.started then t.start else at) + t.total);
    t.kind.Audio? && t.aac && lost <= -2 * t.frame && 0 < -Int32(Trunc(lost, t.frame)) < MAX_REPAIR
  }

  lemma {:induction false} PutLost(t: Track, mdat: nat, data: bytes, pts: int, dts: int)
    requires data != []
    ensures var u, at := Put(t, mdat, data, pts, dts), Trunc(dts * t.timescale, 1000);
      u.samples != [] && Lost(u) == at - ((if t.started then t.start else at) + t.total)
  {
    hide Relocated, Trunc;
  }

  lemma {:induction false} GapDropless(t: Track, tr: Trace, mdat: nat)
    requires t.samples != [] && t.frame > 0 && InBuffer(t) && Sum(t.samples) <= mdat && Follows(t, tr)
    requires t.aac && Lost(t) >= 2 * t.frame
    ensures Dropless(RepairTrace(t, tr, mdat)) <==> Dropless(tr)
  {
    LastIn(t);
    hide Drop, Insert, InsertTrace, Timed, Lost, Trunc, Int32, Sum, InBuffer, Follows, Dropless;
    var count := Int32(Trunc(Lost(t), t.frame));
    if count < MAX_REPAIR {
      var silence := if t.silence != [] then t.silence else Data(t, t.samples[|t.samples| - 1]);
      InsertDropless(Timed(t), tr, mdat, silence, count, t.start + t.total);
    }
  }

  lemma {:induction false} OverlapDropless(t: Track, tr: Trace, mdat: nat)
    requires t.samples != [] && t.frame > 0 && InBuffer(t) && Sum(t.samples) <= mdat && Follows(t, tr) && Dropless(tr)
    requires !(t.aac && Lost(t) >= 2 * t.frame)
    ensures Dropless(RepairTrace(t, tr, mdat))
       <==> !(t.aac && Lost(t) <= -2 * t.frame && 0 < -Int32(Trunc(Lost(t), t.frame)) < MAX_REPAIR)
  {
    CutDropless(t, tr, |tr.held|);
    hide Drop, Insert, InsertTrace, Lost, Trunc, Int32, Sum, InBuffer, Follows, Dropless;
    var u, count := Timed(t), Int32(Trunc(Lost(t), t.frame));
    if t.aac && Lost(t) <= -2 * t.frame && -count < MAX_REPAIR {
      DropPrefix(u, mdat, -count);
      CutDropless(t, tr, |Drop(u, mdat, -count).0.samples|);
    }
  }

  lemma {:induction false} RepairDropless(t: Track, tr: Trace, mdat: nat)
    requires t.samples != [] && t.frame > 0 && InBuffer(t) && Sum(t.samples) <= mdat && Follows(t, tr) && Dropless(tr)
    ensures Dropless(RepairTrace(t, tr, mdat))
       <==> !(t.aac && Lost(t) <= -2 * t.frame && 0 < -Int32(Trunc(Lost(t), t.frame)) < MAX_REPAIR)
  {
    hide *;
    if t.aac && Lost(t) >= 2 * t.frame {
      GapDropless(t, tr, mdat);
    } else {
      OverlapDropless(t, tr, mdat);
    }
  }

  // A write leaves nothing dropped behind exactly when nothing was given, or its time calls for no drop.
  lemma {:induction false} WriteDropless(t: Track, tr: Trace, mdat: nat, data: bytes, pts: int, dts: int)
    requires Sane(t) && Sum(t.samples) <= mdat && Follows(t, tr) && |data| < POW32 && Dropless(tr)
    ensures Dropless(WriteTrace(t, tr, mdat, data, pts, dts)) <==> data == [] || !Drops(t, dts)
  {
    hide Follows, Dropless, Put, PutTrace, Repaired, RepairTrace, Sum, InBuffer, Lost, Trunc, Int32;
    if data != [] {
      var u := Put(t, mdat, data, pts, dts);
      PutSum(t, mdat, data, pts, dts);
      PutIn(t, mdat, data, pts, dts);
      PutKeepsFormat(t, mdat, data, pts, dts);
      PutLost(t, mdat, data, pts, dts);
      PutFollows(t, tr, mdat, data, pts, dts);
      PutDropless(t, tr, data);
      if t.kind.Audio? { RepairDropless(u, PutTrace(t, tr, data), mdat + |data|); }
    }
  }

  // The repair of no write drops samples.
  predicate DropFree(w: Writer, ops: seq<L.Op>)
    requires Sound(w) && Balanced(w) && L.AllShort(ops)
    decreases |ops|
  {
    ops == [] ||
    (L.StepBalanced(w, ops[0]);
     !StepDrops(w, ops[0]) && DropFree(L.Step(w, ops[0]), ops[1..]))
  }

  predicate StepDrops(w: Writer, op: L.Op)
    requires Sound(w)
  {
    op.Put? && 0 <= op.idx < |w.tracks| && op.data != []
    && (assert Sane(w.tracks[op.idx]); Drops(w.tracks[op.idx], op.dts))
  }

  predicate AllDropless(trs: seq<Trace>) { forall i :: 0 <= i < |trs| ==> Dropless(trs[i]) }

  lemma {:induction false} StepDropless(w: Writer, trs: seq<Trace>, op: L.Op)
    requires Sound(w) && Balanced(w) && AllFollow(w.tracks, trs) && (op.Put? ==> |op.data| < POW32)
    requires AllDropless(trs)
    ensures AllDropless(StepTraces(w, trs, op)) <==> !StepDrops(w, op)
  {
    hide Follows, WriteTrace, WriteTrack, Total, Sum, L.Save, Dropless, Drops, InBuffer;
    NothingDropless();
    match op
    case Put(idx, data, pts, dts) =>
      if 0 <= idx < |w.tracks| {
        TotalAt(w.tracks, idx);
        WriteDropless(w.tracks[idx], trs[idx], w.mdat, data, pts, dts);
        assert StepTraces(w, trs, op)[idx] == WriteTrace(w.tracks[idx], trs[idx], w.mdat, data, pts, dts);
      }
    case Close(_) =>
  }

  lemma {:induction false} NothingDropless()
    ensures Dropless(NOTHING_LAID)
  {
  }

  lemma {:induction false} RunDropless(w: Writer, trs: seq<Trace>, ops: seq<L.Op>)
    requires Sound(w) && Balanced(w) && L.AllShort(ops) && AllFollow(w.tracks, trs) && AllDropless(trs) && DropFree(w, ops)
    ensures AllDropless(RunTraces(w, trs, ops))
    decreases |ops|
  {
    hide Sound, Balanced, AllFollow, L.Step, StepTraces, StepDrops, AllDropless;
    if ops != [] {
      L.StepBalanced(w, ops[0]);
      StepFollows(w, trs, ops[0]);
      StepDropless(w, trs, ops[0]);
      RunDropless(L.Step(w, ops[0]), StepTraces(w, trs, ops[0]), ops[1..]);
    }
  }

  // From empty tracks, as they are at first and after every save, as long as no repair drops samples, what is saved is
  // what was given.
  lemma {:induction false} DropFreeSaved(w: Writer, trs: seq<Trace>, ops: seq<L.Op>, next: int)
    requires Sound(w) && Balanced(w) && L.AllShort(ops) && AllFollow(w.tracks, trs) && AllDropless(trs) && DropFree(w, ops)
    ensures L.Save(L.Run(w, ops), next).media == AllGiven(RunTraces(w, trs, ops))
  {
    RunFollows(w, trs, ops);
    RunDropless(w, trs, ops);
    SavedIsGiven(w, trs, ops, next);
    hide L.Run, RunTraces, L.Save, Follows, Right, Dropless, DropFree;
    var r := RunTraces(w, trs, ops);
    forall i | 0 <= i < |r| ensures Right(r[i]) { DroplessRight(L.Run(w, ops).tracks[i], r[i]); }
  }

  // ---------------------------------------------------------------------------
  // A run in which samples are moved

  // The buffer that every audio track is given before its first write.
  const CAPACITY := 256 * 1024

  // AAC in stereo at 48 kHz, with the built-in silent frame for it.
  function FreshTrack(): Track {
    Track(Audio, 48000, true, 1024, [0x21, 0x00, 0x49, 0x90, 0x02, 0x19, 0x00, 0x23, 0x80], [], false, 0, 0, Zeros(CAPACITY), 0, 0)
  }

  function FreshWriter(): Writer { Writer([FreshTrack()], 0) }

  lemma {:induction false} FreshStart()
    ensures var w := FreshWriter();
      && |w.tracks| == 1 && Sound(w) && Balanced(w) && AllFollow(w.tracks, [NOTHING_LAID])
      && Aac(w.tracks[0], 4800, 0) && w.tracks[0].samples == [] && w.tracks[0].used == 0 && |w.tracks[0].buffer| == CAPACITY
  {
    hide Zeros;
    var ts := FreshWriter().tracks;
    assert ts[..0] == [] && Total([]) == 0;
  }

  // A track of that format, with the frames so far from `start` on for `total`.
  predicate Aac(t: Track, start: int, total: int) {
    && t.kind.Audio? && t.timescale == 48000 && t.aac && t.frame == 1024
    && (t.started ==> t.start == start) && t.total == total
  }

  lemma {:induction false} AacPut(t: Track, mdat: nat, data: bytes, ms: int, start: int, total: int) returns (u: Track)
    requires Aac(t, start, total) && data != [] && (t.started || 48 * ms == start)
    ensures u == Put(t, mdat, data, ms, ms) && |u.samples| == |t.samples| + 1
    ensures Lost(u) == 48 * ms - (start + total) && u.started && u.used == t.used + |data|
    ensures Aac(u, start, total) && (!Grows(t, |data|) ==> |u.buffer| == |t.buffer| && u.samples[..|t.samples|] == t.samples)
  {
    hide Relocated;
    assert Trunc(ms * 48000, 1000) == 48 * ms;
    u := Put(t, mdat, data, ms, ms);
  }

  lemma {:induction false} AacTimed(u: Track, start: int, total: int)
    requires u.samples != [] && Aac(u, start, total)
    ensures var v, n := Timed(u), |u.samples| - 1;
      && Aac(v, start, total + 1024) && v.started == u.started && v.buffer == u.buffer && v.used == u.used
      && |v.samples| == n + 1 && v.samples[n].duration == 1024 && v.samples[..n] == u.samples[..n]
  {
  }

  // A frame that is less than two frames off is kept.
  lemma {:induction false} AacKept(t: Track, tr: Trace, mdat: nat, data: bytes, ms: int, start: int, total: int)
    requires Sane(t) && Sum(t.samples) <= mdat && Follows(t, tr) && data != [] && |data| < POW32
    requires Aac(t, start, total) && (t.started || 48 * ms == start) && -2048 < 48 * ms - (start + total) < 2048
    ensures var u := WriteTrack(t, mdat, data, ms, ms).track;
      && Aac(u, start, total + 1024) && u.started && u.used == t.used + |data|
      && |u.samples| == |t.samples| + 1 && u.samples[|t.samples|].duration == 1024
      && (!Grows(t, |data|) ==> |u.buffer| == |t.buffer|)
    ensures WriteTrace(t, tr, mdat, data, ms, ms) == PutTrace(t, tr, data)
  {
    hide Put, PutTrace, Follows, Sum, InBuffer, Timed, Lost, Drop, Insert;
    PutSum(t, mdat, data, ms, ms);
    PutIn(t, mdat, data, ms, ms);
    PutFollows(t, tr, mdat, data, ms, ms);
    var u := AacPut(t, mdat, data, ms, start, total);
    AacTimed(u, start, total);
  }

  // One that is two frames early goes, and takes the one before it along.
  lemma {:induction false} AacDropped(t: Track, tr: Trace, mdat: nat, data: bytes, ms: int, start: int)
    requires Sane(t) && Sum(t.samples) <= mdat && Follows(t, tr) && data != [] && |data| < POW32 && !Grows(t, |data|)
    requires Aac(t, start, 1024) && t.started && |t.samples| == 1 && t.samples[0].duration == 1024
    requires -3072 < 48 * ms - (start + 1024) <= -2048
    ensures var u := WriteTrack(t, mdat, data, ms, ms).track;
      Aac(u, start, 0) && u.started && u.used == t.used + |data| && u.samples == [] && |u.buffer| == |t.buffer|
    ensures WriteTrace(t, tr, mdat, data, ms, ms) == Trace(tr.laid + data, [])
  {
    PutTraceLaid(t, tr, data);
    hide Put, PutTrace, Follows, Sum, InBuffer, Timed, Lost, Drop, Insert;
    PutSum(t, mdat, data, ms, ms);
    PutIn(t, mdat, data, ms, ms);
    PutFollows(t, tr, mdat, data, ms, ms);
    var u := AacPut(t, mdat, data, ms, start, 1024);
    AacTimed(u, start, 1024);
    TwoFrames(Lost(u));
    TwoDropped(Timed(u), mdat + |data|, start);
  }

  lemma {:induction false} PutTraceLaid(t: Track, tr: Trace, data: bytes)
    ensures PutTrace(t, tr, data).laid == tr.laid + data
    ensures PutTrace(t, tr, data).held[..0] == []
  {
  }

  lemma {:induction false} TwoFrames(lost: int)
    requires -3072 < lost <= -2048
    ensures Int32(Trunc(lost, 1024)) == -2
  {
  }

  lemma {:induction false} TwoDropped(t: Track, mdat: int, start: int)
    requires Aac(t, start, 2048) && t.started && |t.samples| == 2
    requires t.samples[1].duration == 1024 && t.samples[..1][0].duration == 1024
    ensures var u := Drop(t, mdat, 2).0;
      Aac(u, start, 0) && u.started && u.used == t.used && u.buffer == t.buffer && u.samples == []
  {
    var s := t.samples;
    var once := t.(samples := s[..1], total := t.total - s[1].duration);
    OneDropped(t, mdat, 2);
    OneDropped(once, mdat - s[1].bytes, 1);
    hide Drop;
    assert once.samples[..0] == [];
    var none := once.(samples := [], total := 0);
    NoneDropped(none, mdat - s[1].bytes - s[0].bytes);
  }

  lemma {:induction false} OneDropped(t: Track, mdat: int, count: int)
    requires count > 0 && t.samples != []
    ensures var n := |t.samples| - 1;
      Drop(t, mdat, count)
        == Drop(t.(samples := t.samples[..n], total := t.total - t.samples[n].duration), mdat - t.samples[n].bytes, count - 1)
  {
  }

  lemma {:induction false} NoneDropped(t: Track, mdat: int)
    ensures Drop(t, mdat, 0) == (t, mdat)
  {
  }

  // A run with a first step.
  lemma {:induction false} RunOn(w: Writer, trs: seq<Trace>, op: L.Op, ops: seq<L.Op>)
    requires Sound(w) && Balanced(w) && AllFollow(w.tracks, trs) && L.AllShort([op] + ops)
    ensures op.Put? ==> |op.data| < POW32
    ensures var v, r := L.Step(w, op), StepTraces(w, trs, op);
      && Sound(v) && Balanced(v) && AllFollow(v.tracks, r) && L.AllShort(ops)
      && L.Run(w, [op] + ops) == L.Run(v, ops) && RunTraces(w, trs, [op] + ops) == RunTraces(v, r, ops)
  {
    hide Sound, Balanced, AllFollow, L.Step, StepTraces;
    assert ([op] + ops)[0] == op && ([op] + ops)[1..] == ops;
    forall i | 0 <= i < |ops| ensures ops[i].Put? ==> |ops[i].data| < POW32 { assert ops[i] == ([op] + ops)[i + 1]; }
    L.StepBalanced(w, op);
    StepFollows(w, trs, op);
  }

  lemma {:induction false} StepOne(w: Writer, tr: Trace, data: bytes, ms: int) returns (t: Track)
    requires |w.tracks| == 1 && Sound(w) && Balanced(w) && AllFollow(w.tracks, [tr]) && |data| < POW32
    ensures t == w.tracks[0] && Sane(t) && Sum(t.samples) <= w.mdat && Follows(t, tr)
    ensures var op := L.Op.Put(0, data, ms, ms);
      && L.Step(w, op).tracks == [WriteTrack(t, w.mdat, data, ms, ms).track]
      && StepTraces(w, [tr], op) == [WriteTrace(t, tr, w.mdat, data, ms, ms)]
  {
    hide WriteTrack, WriteTrace, Follows, Sane, Sum, Total;
    TotalAt(w.tracks, 0);
    assert Follows(w.tracks[0], [tr][0]);
    t := w.tracks[0];
  }

  // Four frames at 100, 78, 100 and 121 milliseconds: the second is two frames early, so that the first two are dropped;
  // the third is stored behind them, and for the fourth the buffer grows.
  function SceneOps(a: bytes, b: bytes, c: bytes, d: bytes): seq<L.Op> {
    [L.Op.Put(0, a, 100, 100)] + ([L.Op.Put(0, b, 78, 78)] + ([L.Op.Put(0, c, 100, 100)] + ([L.Op.Put(0, d, 121, 121)] + [])))
  }

  predicate SceneSizes(a: bytes, b: bytes, c: bytes, d: bytes) {
    && a != [] && b != [] && c != [] && d != [] && |d| < POW32
    && |a| + |b| + |c| <= CAPACITY < |a| + |b| + |c| + |d|
  }

  function SceneTrace(a: bytes, b: bytes, c: bytes, d: bytes): Trace {
    Trace(a + b + c + d, [Held(c, |a| + |b|, true), Held(d, |a| + |b| + |c|, false)])
  }

  lemma {:induction false} SceneShort(a: bytes, b: bytes, c: bytes, d: bytes)
    requires SceneSizes(a, b, c, d)
    ensures L.AllShort(SceneOps(a, b, c, d))
  {
  }

  // A state on the way: one track of that format that takes up `used` bytes of its first buffer.
  predicate OnWay(w: Writer, tr: Trace, total: int, used: nat, count: nat) {
    && |w.tracks| == 1 && Sound(w) && Balanced(w) && AllFollow(w.tracks, [tr])
    && var t := w.tracks[0];
       && Aac(t, 4800, total) && t.started && t.used == used && |t.buffer| == CAPACITY
       && |t.samples| == count && (count == 1 ==> t.samples[0].duration == 1024)
  }

  lemma {:induction false} FirstStep(a: bytes, ops: seq<L.Op>) returns (v: Writer, tr: Trace)
    requires a != [] && |a| <= CAPACITY && L.AllShort([L.Op.Put(0, a, 100, 100)] + ops)
    ensures Sound(FreshWriter()) && Balanced(FreshWriter()) && AllFollow(FreshWriter().tracks, [NOTHING_LAID])
    ensures OnWay(v, tr, 1024, |a|, 1) && tr == Trace([] + a, [Held(a, 0, false)]) && L.AllShort(ops)
    ensures var op := L.Op.Put(0, a, 100, 100);
      && L.Run(FreshWriter(), [op] + ops) == L.Run(v, ops)
      && RunTraces(FreshWriter(), [NOTHING_LAID], [op] + ops) == RunTraces(v, [tr], ops)
  {
    hide FreshWriter, L.Run, RunTraces, Sound, Balanced, AllFollow, Follows, Sane, Sum, WriteTrack, WriteTrace, L.Step, StepTraces;
    FreshStart();
    var w := FreshWriter();
    RunOn(w, [NOTHING_LAID], L.Op.Put(0, a, 100, 100), ops);
    var t := StepOne(w, NOTHING_LAID, a, 100);
    AacKept(t, NOTHING_LAID, w.mdat, a, 100, 4800, 0);
    v, tr := L.Step(w, L.Op.Put(0, a, 100, 100)), PutTrace(t, NOTHING_LAID, a);
  }

  lemma {:induction false} DropStep(w: Writer, tr: Trace, b: bytes, used: nat, ops: seq<L.Op>) returns (v: Writer)
    requires b != [] && used + |b| <= CAPACITY && OnWay(w, tr, 1024, used, 1) && L.AllShort([L.Op.Put(0, b, 78, 78)] + ops)
    ensures OnWay(v, Trace(tr.laid + b, []), 0, used + |b|, 0) && L.AllShort(ops)
    ensures var op := L.Op.Put(0, b, 78, 78);
      && L.Run(w, [op] + ops) == L.Run(v, ops) && RunTraces(w, [tr], [op] + ops) == RunTraces(v, [Trace(tr.laid + b, [])], ops)
  {
    hide L.Run, RunTraces, Sound, Balanced, AllFollow, Follows, Sane, Sum, WriteTrack, WriteTrace, L.Step, StepTraces;
    RunOn(w, [tr], L.Op.Put(0, b, 78, 78), ops);
    var t := StepOne(w, tr, b, 78);
    AacDropped(t, tr, w.mdat, b, 78, 4800);
    v := L.Step(w, L.Op.Put(0, b, 78, 78));
  }

  lemma {:induction false} KeepStep(w: Writer, tr: Trace, c: bytes, used: nat, ops: seq<L.Op>) returns (v: Writer, r: Trace)
    requires c != [] && used + |c| <= CAPACITY && OnWay(w, tr, 0, used, 0) && L.AllShort([L.Op.Put(0, c, 100, 100)] + ops)
    ensures OnWay(v, r, 1024, used + |c|, 1) && L.AllShort(ops) && r == Trace(tr.laid + c, tr.held + [Held(c, |tr.laid|, false)])
    ensures var op := L.Op.Put(0, c, 100, 100);
      L.Run(w, [op] + ops) == L.Run(v, ops) && RunTraces(w, [tr], [op] + ops) == RunTraces(v, [r], ops)
  {
    hide L.Run, RunTraces, Sound, Balanced, AllFollow, Follows, Sane, Sum, WriteTrack, WriteTrace, L.Step, StepTraces;
    RunOn(w, [tr], L.Op.Put(0, c, 100, 100), ops);
    var t := StepOne(w, tr, c, 100);
    AacKept(t, tr, w.mdat, c, 100, 4800, 0);
    v, r := L.Step(w, L.Op.Put(0, c, 100, 100)), PutTrace(t, tr, c);
  }

  lemma {:induction false} GrowStep(w: Writer, tr: Trace, d: bytes, used: nat) returns (v: Writer, r: Trace)
    requires d != [] && |d| < POW32 && used + |d| > CAPACITY && OnWay(w, tr, 1024, used, 1)
    requires L.AllShort([L.Op.Put(0, d, 121, 121)] + [])
    ensures |v.tracks| == 1 && AllFollow(v.tracks, [r])
    ensures r == Trace(tr.laid + d, AllGrown(tr.held) + [Held(d, |tr.laid|, false)])
    ensures var ops := [L.Op.Put(0, d, 121, 121)] + []; L.Run(w, ops) == v && RunTraces(w, [tr], ops) == [r]
  {
    hide Sound, Balanced, AllFollow, Follows, Sane, Sum, WriteTrack, WriteTrace, L.Step, StepTraces, AllGrown;
    RunOn(w, [tr], L.Op.Put(0, d, 121, 121), []);
    var t := StepOne(w, tr, d, 121);
    AacKept(t, tr, w.mdat, d, 121, 4800, 1024);
    v, r := L.Step(w, L.Op.Put(0, d, 121, 121)), PutTrace(t, tr, d);
  }

  lemma {:induction false} SceneRun(a: bytes, b: bytes, c: bytes, d: bytes) returns (v: Writer)
    requires SceneSizes(a, b, c, d)
    ensures Sound(FreshWriter()) && Balanced(FreshWriter()) && AllFollow(FreshWriter().tracks, [NOTHING_LAID])
    ensures L.AllShort(SceneOps(a, b, c, d)) && L.Run(FreshWriter(), SceneOps(a, b, c, d)) == v
    ensures |v.tracks| == 1 && AllFollow(v.tracks, [SceneTrace(a, b, c, d)])
    ensures RunTraces(FreshWriter(), [NOTHING_LAID], SceneOps(a, b, c, d)) == [SceneTrace(a, b, c, d)]
  {
    SceneShort(a, b, c, d);
    hide L.Run, RunTraces, FreshWriter, Sound, Balanced, AllFollow, OnWay, L.AllShort, AllGrown, SceneTrace;
    var last := [L.Op.Put(0, d, 121, 121)] + [];
    var late := [L.Op.Put(0, c, 100, 100)] + last;
    var w1, r1 := FirstStep(a, [L.Op.Put(0, b, 78, 78)] + late);
    var w2 := DropStep(w1, r1, b, |a|, late);
    var w3, r3 := KeepStep(w2, Trace(r1.laid + b, []), c, |a| + |b|, last);
    var w4, r4 := GrowStep(w3, r3, d, |a| + |b| + |c|);
    v := w4;
    SceneTraces(r1, r3, r4, a, b, c, d);
  }

  lemma {:induction false} SceneTraces(r1: Trace, r3: Trace, r4: Trace, a: bytes, b: bytes, c: bytes, d: bytes)
    requires r1.laid == [] + a && r3 == Trace(r1.laid + b + c, [] + [Held(c, |r1.laid + b|, false)])
    requires r4 == Trace(r3.laid + d, AllGrown(r3.held) + [Held(d, |r3.laid|, false)])
    ensures r4 == SceneTrace(a, b, c, d)
  {
    assert AllGrown(r3.held) == [Held(c, |a| + |b|, true)];
  }

  lemma {:induction false} TwoPayload(buffer: bytes, x: Sample, y: Sample)
    requires x.data + x.bytes <= |buffer| && y.data + y.bytes <= |buffer|
    ensures SamplesIn([x, y], |buffer|)
    ensures L.Payload(buffer, [x, y]) == buffer[x.data..x.data + x.bytes] + buffer[y.data..y.data + y.bytes]
  {
    assert [x, y][..1] == [x] && [x][..0] == [];
    assert SamplesIn([x], |buffer|);
    var front := buffer[x.data..x.data + x.bytes];
    assert L.Payload(buffer, [x]) == [] + front == front;
  }

  lemma {:induction false} SceneMedia(t: Track, a: bytes, b: bytes, c: bytes, d: bytes)
    requires c != [] && d != [] && Follows(t, SceneTrace(a, b, c, d))
    ensures SamplesIn(t.samples, |t.buffer|) && L.Payload(t.buffer, t.samples) == (a + b + c)[..|c|] + d
    ensures Given(SceneTrace(a, b, c, d).held) == c + d
  {
    var tr := SceneTrace(a, b, c, d);
    var s, h := t.samples, tr.held;
    SceneBelow(c, d, |a| + |b|, |a| + |b| + |c|);
    assert HeldAt(s, tr, 0) && HeldAt(s, tr, 1);
    hide HeldAt, Below, Given, L.Payload, SamplesIn;
    assert s == [s[0], s[1]];
    FrontSlice(t.buffer, t.used, 0, |c|);
    FrontSlice(t.buffer, t.used, s[1].data, s[1].data + |d|);
    assert tr.laid[0..|c|] == (a + b + c)[..|c|];
    TwoPayload(t.buffer, s[0], s[1]);
  }

  lemma {:induction false} SceneBelow(c: bytes, d: bytes, m: nat, n: nat)
    ensures var h := [Held(c, m, true), Held(d, n, false)];
      Below(h[..0]) == 0 && Below(h[..1]) == |c| && Given(h) == c + d
  {
    var h := [Held(c, m, true), Held(d, n, false)];
    assert h[..1] == [h[0]] && [h[0]][..0] == [] && h[..0] == [];
  }

  // What is saved of such a run starts with bytes of the dropped frames: the third frame is written from where the buffer
  // begins.
  lemma {:induction false} FrontSaved(a: bytes, b: bytes, c: bytes, d: bytes, next: int)
    requires SceneSizes(a, b, c, d)
    ensures var w, ops := FreshWriter(), SceneOps(a, b, c, d);
      && Sound(w) && Balanced(w) && AllFollow(w.tracks, [NOTHING_LAID]) && L.AllShort(ops)
      && L.Save(L.Run(w, ops), next).media == (a + b + c)[..|c|] + d
      && AllGiven(RunTraces(w, [NOTHING_LAID], ops)) == c + d
  {
    var v := SceneRun(a, b, c, d);
    hide L.Run, RunTraces, Follows, L.Save, FreshWriter, SceneOps, Sound, SceneTrace, SamplesIn, Total;
    var t, tr := v.tracks[0], SceneTrace(a, b, c, d);
    assert Follows(v.tracks[0], [tr][0]);
    SceneMedia(t, a, b, c, d);
    assert [tr][..0] == [] && v.tracks == [t] && [t][..0] == [];
    SceneHeld(t, tr, v);
    SavedAll(v, next);
  }

  lemma {:induction false} SceneHeld(t: Track, tr: Trace, w: Writer)
    requires Follows(t, tr) && Given(tr.held) != [] && w.tracks == [t] && Balanced(w)
    ensures w.mdat >= 1
  {
    WholeTrack(t, tr);
    assert [t][..0] == [] && Total([]) == 0;
  }

  // So a frame of one byte, 3, comes out as the byte 1 of a dropped one.
  lemma {:induction false} SavedIsNotGiven()
    ensures var w, ops := FreshWriter(), SceneOps([1], [2], [3], seq(CAPACITY, i => 4));
      && Sound(w) && Balanced(w) && AllFollow(w.tracks, [NOTHING_LAID]) && L.AllShort(ops)
      && L.Save(L.Run(w, ops), 0).media == [1] + seq(CAPACITY, i => 4)
      && AllGiven(RunTraces(w, [NOTHING_LAID], ops)) == [3] + seq(CAPACITY, i => 4)
  {
    hide L.Run, RunTraces, AllFollow, L.Save, FreshWriter, SceneOps, Sound, Balanced;
    var d: bytes := seq(CAPACITY, i => 4);
    FrontSaved([1], [2], [3], d, 0);
    var front: bytes := [1] + [2] + [3];
    assert front[..1] == [1];
  }
}
