/** Decode times and durations in a fragmented MP4. */
module Fmp4Times {
  import opened Bytes
  import opened Fmp4
  import L = Fmp4Layout

  // ---------------------------------------------------------------------------
  // Times

  // Milliseconds in the ticks of a track: less than one tick off, towards zero.
  lemma {:induction false} Scaled(ms: int, scale: nat) returns (at: int)
    ensures at == Trunc(ms * scale, 1000)
    ensures ms * scale >= 0 ==> 1000 * at <= ms * scale < 1000 * at + 1000
    ensures ms * scale <= 0 ==> 1000 * at - 1000 < ms * scale <= 1000 * at
  {
    at := Trunc(ms * scale, 1000);
    TruncBounds(ms * scale);
  }

  lemma {:induction false} TruncBounds(v: int)
    ensures v >= 0 ==> 1000 * Trunc(v, 1000) <= v < 1000 * Trunc(v, 1000) + 1000
    ensures v <= 0 ==> 1000 * Trunc(v, 1000) - 1000 < v <= 1000 * Trunc(v, 1000)
  {
  }

  // Every sample ends where the next one begins.
  predicate Tiled(samples: seq<Sample>) {
    var n := |samples|;
    n < 2 || (Tiled(samples[..n - 1]) && samples[n - 2].dts + samples[n - 2].duration == samples[n - 1].dts)
  }

  // What growing a buffer leaves of a sample.
  predicate SameTimes(a: seq<Sample>, b: seq<Sample>) {
    |a| == |b| && forall i :: 0 <= i < |a| ==> a[i].dts == b[i].dts && a[i].pts == b[i].pts && a[i].duration == b[i].duration
  }

  lemma {:induction false} TiledSame(a: seq<Sample>, b: seq<Sample>)
    requires SameTimes(a, b)
    ensures Tiled(a) <==> Tiled(b)
    decreases |a|
  {
    if |a| >= 2 { TiledSame(a[..|a| - 1], b[..|b| - 1]); }
  }

  lemma {:induction false} RelocatedTimes(samples: seq<Sample>)
    ensures SameTimes(Relocated(samples), samples)
    decreases |samples|
  {
    if samples != [] { RelocatedTimes(samples[..|samples| - 1]); }
  }

  // A new sample has the times given, in ticks, and no duration yet; the others keep theirs.
  lemma {:induction false} PutTimes(t: Track, mdat: nat, data: bytes, pts: int, dts: int)
    requires data != []
    ensures var u, n := Put(t, mdat, data, pts, dts), |t.samples|;
      && |u.samples| == n + 1 && SameTimes(u.samples[..n], t.samples)
      && u.samples[n].dts == Trunc(dts * t.timescale, 1000) && u.samples[n].pts == Trunc(pts * t.timescale, 1000)
      && u.samples[n].duration == 0 && u.total == t.total
      && u.started && u.start == if t.started then t.start else u.samples[n].dts
  {
    RelocatedTimes(t.samples);
    hide Relocated, Trunc;
  }

  // ---------------------------------------------------------------------------
  // Video

  // The samples of a track tile the time line, which has come to the last of them.
  predicate Timeline(t: Track) {
    && Tiled(t.samples)
    && (!t.started ==> t.samples == [] && t.total == 0)
    && (t.samples != [] ==> t.start + t.total == t.samples[|t.samples| - 1].dts)
  }

  // Where the next sample is expected: at the end of a saved fragment, or not before the last sample and within 32 bits.
  predicate InTime(t: Track, at: int) {
    t.started ==> if t.samples == [] then at == t.start + t.total else 0 <= at - t.samples[|t.samples| - 1].dts < POW32
  }

  lemma {:induction false} TiledPrefix(samples: seq<Sample>, k: nat)
    requires Tiled(samples) && k <= |samples|
    ensures Tiled(samples[..k])
    decreases |samples|
  {
    if k < |samples| {
      if |samples| >= 2 {
        TiledPrefix(samples[..|samples| - 1], k);
        assert samples[..|samples| - 1][..k] == samples[..k];
      }
    } else {
      assert samples[..k] == samples;
    }
  }

  lemma {:induction false} TiledSnoc(samples: seq<Sample>, prev: Sample, last: Sample)
    requires Tiled(samples + [prev]) && prev.dts + prev.duration == last.dts
    ensures Tiled(samples + [prev] + [last])
  {
    assert (samples + [prev] + [last])[..|samples| + 1] == samples + [prev];
  }

  // Only the duration of the last of tiling samples may change.
  lemma {:induction false} TiledLast(samples: seq<Sample>, prev: Sample, d: nat)
    requires Tiled(samples + [prev])
    ensures Tiled(samples + [prev.(duration := d)])
  {
    assert (samples + [prev])[..|samples|] == samples;
    assert (samples + [prev.(duration := d)])[..|samples|] == samples;
  }

  // A write to a video track gives the sample before the new one the time between the two, and the total grows by it;
  // a sample that comes too early leaves it without duration.
  lemma {:induction false} VideoWrite(t: Track, mdat: nat, data: bytes, pts: int, dts: int)
    requires Sane(t) && Sum(t.samples) <= mdat && t.kind.Video? && data != []
    ensures var u, n := WriteTrack(t, mdat, data, pts, dts).track, |t.samples|;
      && |u.samples| == n + 1 && u.started
      && u.samples[n].dts == Trunc(dts * t.timescale, 1000) && u.samples[n].pts == Trunc(pts * t.timescale, 1000)
      && (n == 0 ==> u.total == t.total && u.start == if t.started then t.start else u.samples[0].dts)
      && (n > 0 && t.started ==> u.start == t.start)
      && (n > 0 ==>
            && SameTimes(u.samples[..n - 1], t.samples[..n - 1]) && u.samples[n - 1].dts == t.samples[n - 1].dts
            && var gap := u.samples[n].dts - u.samples[n - 1].dts;
               && (0 <= gap < POW32 ==> u.samples[n - 1].duration == gap && u.total == t.total + gap)
               && (gap < 0 ==> u.samples[n - 1].duration == 0 && u.total == t.total))
  {
    PutSum(t, mdat, data, pts, dts);
    PutIn(t, mdat, data, pts, dts);
    PutTimes(t, mdat, data, pts, dts);
    PutKeepsFormat(t, mdat, data, pts, dts);
    hide Put, Sum, InBuffer, Trunc;
    var u, n := Put(t, mdat, data, pts, dts), |t.samples|;
    if n > 0 {
      assert u.samples[..n][n - 1] == u.samples[n - 1] && t.samples[..n - 1] == t.samples[..n][..n - 1];
      assert Spaced(u).samples[..n - 1] == u.samples[..n][..n - 1];
    }
  }

  // Samples that come in time keep the time line.
  lemma {:induction false} WriteTimeline(t: Track, mdat: nat, data: bytes, pts: int, dts: int)
    requires Sane(t) && Sum(t.samples) <= mdat && t.kind.Video? && data != []
    requires Timeline(t) && InTime(t, Trunc(dts * t.timescale, 1000))
    ensures Timeline(WriteTrack(t, mdat, data, pts, dts).track)
  {
    VideoWrite(t, mdat, data, pts, dts);
    hide WriteTrack, Sane, Sum, Trunc, Tiled, SameTimes;
    var u := WriteTrack(t, mdat, data, pts, dts).track;
    if t.samples == [] { OneTiled(u.samples); } else { TiledWrite(t.samples, u.samples); }
  }

  lemma {:induction false} TiledWrite(a: seq<Sample>, b: seq<Sample>)
    requires a != [] && Tiled(a) && |b| == |a| + 1
    requires var n := |a| - 1;
      && SameTimes(b[..n], a[..n]) && b[n].dts == a[n].dts && b[n].dts + b[n].duration == b[n + 1].dts
    ensures Tiled(b)
  {
    hide Tiled;
    var n := |a| - 1;
    var prev, was := b[n], a[n].(duration := b[n].duration);
    assert a == a[..n] + [a[n]] && b == b[..n] + [prev] + [b[n + 1]];
    TiledLast(a[..n], a[n], prev.duration);
    TiledPts(a[..n], was, prev.pts);
    SnocTimes(b[..n], prev, a[..n], was.(pts := prev.pts));
    hide SameTimes;
    TiledSame(b[..n] + [prev], a[..n] + [was.(pts := prev.pts)]);
    TiledSnoc(b[..n], prev, b[n + 1]);
  }

  lemma {:induction false} OneTiled(samples: seq<Sample>)
    requires |samples| < 2
    ensures Tiled(samples)
  {
  }

  lemma {:induction false} TiledPts(samples: seq<Sample>, s: Sample, pts: int)
    requires Tiled(samples + [s])
    ensures Tiled(samples + [s.(pts := pts)])
  {
    assert (samples + [s])[..|samples|] == samples;
    assert (samples + [s.(pts := pts)])[..|samples|] == samples;
  }

  lemma {:induction false} SnocTimes(a: seq<Sample>, x: Sample, b: seq<Sample>, y: Sample)
    requires SameTimes(a, b) && x.dts == y.dts && x.pts == y.pts && x.duration == y.duration
    ensures SameTimes(a + [x], b + [y])
  {
  }

  // Saving gives the last sample of a video track its duration: up to the time of the next frame, when that is given and
  // in time; else the mean distance of the samples, or that of 30 frames in a second for a single one. The total grows by
  // it.
  lemma {:induction false} ClosedTimes(t: Track, next: int)
    requires t.kind.Video? && t.samples != []
    ensures var c, n := L.Closed(t, next), |t.samples| - 1;
      var last, end := t.samples[n], Trunc(next * t.timescale, 1000);
      && |c.samples| == n + 1 && c.samples[..n] == t.samples[..n] && c.start == t.start
      && c.samples[n] == last.(duration := c.samples[n].duration)
      && (next != 0 && 0 <= end - last.dts < POW32 ==>
            last.dts + c.samples[n].duration == end && c.total == t.total + c.samples[n].duration)
      && (next == 0 && n > 0 && 0 <= last.dts - t.samples[0].dts < POW32 ==>
            && c.total == t.total + c.samples[n].duration
            && c.samples[n].duration * n <= last.dts - t.samples[0].dts < c.samples[n].duration * n + n)
      && (next == 0 && n == 0 && t.timescale < POW32 ==>
            && c.total == t.total + c.samples[n].duration
            && 30 * c.samples[n].duration <= t.timescale < 30 * c.samples[n].duration + 30)
  {
    var n := |t.samples| - 1;
    var span := t.samples[n].dts - t.samples[0].dts;
    if next == 0 && n > 0 && 0 <= span < POW32 { Mean(span, n); }
  }

  lemma {:induction false} Mean(span: nat, n: nat)
    requires n > 0
    ensures var d := Trunc(span, n); 0 <= d <= span && d * n <= span < d * n + n
  {
    Quotient(span, n, span / n, span % n);
  }

  lemma {:induction false} Quotient(span: nat, n: nat, d: nat, r: nat)
    requires n > 0 && span == d * n + r && r < n
    ensures d <= span
  {
    Product(d, n);
  }

  lemma {:induction false} Product(d: nat, n: nat)
    requires n > 0
    ensures d <= d * n
  {
  }

  lemma {:induction false} ClosedTiled(t: Track, next: int)
    requires t.kind.Video? && Tiled(t.samples) && t.samples != []
    ensures Tiled(L.Closed(t, next).samples)
  {
    ClosedTimes(t, next);
    hide L.Closed, Trunc, Tiled;
    var c, n := L.Closed(t, next), |t.samples| - 1;
    assert t.samples == t.samples[..n] + [t.samples[n]] && c.samples == t.samples[..n] + [c.samples[n]];
    TiledLast(t.samples[..n], t.samples[n], c.samples[n].duration);
  }

  // Then the next fragment is expected where this one ends.
  lemma {:induction false} SavedTimeline(t: Track, next: int)
    requires t.kind.Video? && Timeline(t) && t.samples != []
    requires next != 0 && 0 <= Trunc(next * t.timescale, 1000) - t.samples[|t.samples| - 1].dts < POW32
    ensures Tiled(L.Closed(t, next).samples)
    ensures var c := L.Emptied(L.Closed(t, next));
      Timeline(c) && c.started && InTime(c, Trunc(next * t.timescale, 1000))
  {
    ClosedTimes(t, next);
    ClosedTiled(t, next);
    KeptStarted(t, next);
    OneTiled([]);
    var end := Trunc(next * t.timescale, 1000);
    hide L.Closed, Trunc, Tiled;
    assert L.Closed(t, next).start + L.Closed(t, next).total == end;
  }

  lemma {:induction false} KeptStarted(t: Track, next: int)
    ensures L.Closed(t, next).started == t.started && L.Closed(t, next).timescale == t.timescale
    ensures t.samples == [] ==> L.Closed(t, next) == t
  {
  }

  // ---------------------------------------------------------------------------
  // Runs of one video track

  predicate Steady(w: Writer) { |w.tracks| == 1 && w.tracks[0].kind.Video? && Timeline(w.tracks[0]) }

  // Writes come in time, and saves name the time of a next frame that does.
  predicate OnTime(w: Writer, op: L.Op)
    requires Steady(w)
  {
    var t := w.tracks[0];
    match op
    case Put(idx, data, pts, dts) => idx == 0 && data != [] ==> InTime(t, Trunc(dts * t.timescale, 1000))
    case Close(next) =>
      t.samples == []
      || (next != 0 && 0 <= Trunc(next * t.timescale, 1000) - t.samples[|t.samples| - 1].dts < POW32)
  }

  lemma {:induction false} StepSteady(w: Writer, op: L.Op)
    requires Sound(w) && Balanced(w) && Steady(w) && OnTime(w, op)
    ensures Steady(L.Step(w, op))
  {
    var t := w.tracks[0];
    assert w.tracks[..0] == [] && Total([]) == 0;
    match op
    case Put(idx, data, pts, dts) => PutSteady(w, idx, data, pts, dts);
    case Close(next) =>
      if w.mdat >= 1 { CloseSteady(w, next); } else { NothingHeld(w, next); }
  }

  lemma {:induction false} NothingHeld(w: Writer, next: int)
    requires Sound(w) && w.mdat < 1
    ensures L.Save(w, next).w == w
  {
    hide Sound;
  }

  lemma {:induction false} PutSteady(w: Writer, idx: int, data: bytes, pts: int, dts: int)
    requires Sound(w) && Steady(w) && OnTime(w, L.Op.Put(idx, data, pts, dts))
    ensures Steady(Write(w, idx, data, pts, dts).w)
  {
    var t := w.tracks[0];
    TotalAt(w.tracks, 0);
    assert Sane(t);
    if idx == 0 && data != [] {
      WriteTimeline(t, w.mdat, data, pts, dts);
      KindKept(t, w.mdat, data, pts, dts);
    }
    hide WriteTrack, Sane, Timeline, Sum, Total, Trunc;
    if idx == 0 && data == [] { NothingWritten(t, w.mdat, pts, dts); }
  }

  lemma {:induction false} NothingWritten(t: Track, mdat: nat, pts: int, dts: int)
    requires Sane(t) && Sum(t.samples) <= mdat
    ensures WriteTrack(t, mdat, [], pts, dts).track == t
  {
    hide Sane, Sum;
  }

  lemma {:induction false} KindKept(t: Track, mdat: nat, data: bytes, pts: int, dts: int)
    requires Sane(t) && Sum(t.samples) <= mdat && t.kind.Video? && data != []
    ensures var u := WriteTrack(t, mdat, data, pts, dts).track; u.kind == t.kind && u.timescale == t.timescale
  {
    PutSum(t, mdat, data, pts, dts);
    PutIn(t, mdat, data, pts, dts);
    PutKeepsFormat(t, mdat, data, pts, dts);
    hide Put, Sum, InBuffer;
  }

  lemma {:induction false} CloseSteady(w: Writer, next: int)
    requires Sound(w) && w.mdat >= 1 && Steady(w) && OnTime(w, L.Op.Close(next))
    ensures Steady(L.Save(w, next).w)
  {
    var t := w.tracks[0];
    var c := L.AllClosed(w.tracks, next);
    assert c == [L.Closed(t, next)] && c[..0] == [] && L.AllPlaced([]) == [];
    KeptStarted(t, next);
    if t.samples == [] { OneTiled([]); } else { SavedTimeline(t, next); }
    hide L.Closed, Timeline, L.AllPayload, Trunc, L.Placed;
    ClosedKind(t, next);
    var p := L.AllPlaced(c)[0];
    assert p == c[0].(samples := p.samples);
    var e := L.Emptied(p);
    assert L.Save(w, next).w.tracks == [e] && e == L.Emptied(c[0]);
    SameTimeline(t, c[0]);
  }

  lemma {:induction false} ClosedKind(t: Track, next: int)
    ensures L.Closed(t, next).kind == t.kind
  {
  }

  lemma {:induction false} SameTimeline(t: Track, c: Track)
    requires Timeline(t)
    ensures t.samples == [] && c == t ==> Timeline(L.Emptied(c))
  {
  }

  predicate AllOnTime(w: Writer, ops: seq<L.Op>)
    requires Sound(w) && Balanced(w) && Steady(w) && L.AllShort(ops)
    decreases |ops|
  {
    ops == [] ||
    (OnTime(w, ops[0]) &&
     (L.StepBalanced(w, ops[0]);
      StepSteady(w, ops[0]);
      AllOnTime(L.Step(w, ops[0]), ops[1..])))
  }

  // In every run of writes and saves whose times are in order, the samples held tile the time line up to the last one,
  // across fragments.
  lemma {:induction false} RunTimeline(w: Writer, ops: seq<L.Op>)
    requires Sound(w) && Balanced(w) && Steady(w) && L.AllShort(ops) && AllOnTime(w, ops)
    ensures Steady(L.Run(w, ops))
    decreases |ops|
  {
    hide Sound, Balanced, Steady, L.Step, OnTime;
    if ops != [] {
      L.StepBalanced(w, ops[0]);
      StepSteady(w, ops[0]);
      RunTimeline(L.Step(w, ops[0]), ops[1..]);
    }
  }

  // ---------------------------------------------------------------------------
  // Audio

  // Every sample held lasts one frame.
  predicate Framewise(t: Track) { forall i :: 0 <= i < |t.samples| ==> t.samples[i].duration == t.frame }

  // How far the total is ahead of the samples held.
  function Ahead(t: Track): int { t.total - |t.samples| * t.frame }

  lemma {:induction false} PutFramewise(t: Track, mdat: nat, data: bytes, pts: int, dts: int)
    requires data != [] && Framewise(t)
    ensures var u := Put(t, mdat, data, pts, dts);
      u.samples != [] && Framewise(Timed(u)) && Ahead(Timed(u)) == Ahead(t) && Timed(u).frame == t.frame
  {
    PutTimes(t, mdat, data, pts, dts);
    PutKeepsFormat(t, mdat, data, pts, dts);
    hide Put;
    var u, n := Put(t, mdat, data, pts, dts), |t.samples|;
    forall i | 0 <= i < n + 1 ensures Timed(u).samples[i].duration == t.frame {
      if i < n { assert u.samples[..n][i] == u.samples[i]; }
    }
    MoreFrames(n, t.frame);
  }

  lemma {:induction false} MoreFrames(n: nat, frame: nat)
    ensures (n + 1) * frame == n * frame + frame
  {
  }

  lemma {:induction false} InsertFramewise(t: Track, mdat: nat, silence: bytes, count: int, dts: int)
    requires Framewise(t)
    ensures var u := Insert(t, mdat, silence, count, dts).track; Framewise(u) && Ahead(u) == Ahead(t) && u.frame == t.frame
    decreases count
  {
    hide Put, Timed, Framewise, Ahead;
    if count > 0 && silence != [] {
      PutFramewise(t, mdat, silence, dts, dts);
      InsertFramewise(Timed(Put(t, mdat, silence, dts, dts)), mdat + |silence|, silence, count - 1, dts + t.frame);
    }
  }

  lemma {:induction false} DropFramewise(t: Track, mdat: int, count: int)
    requires Framewise(t)
    ensures var u := Drop(t, mdat, count).0; Framewise(u) && Ahead(u) == Ahead(t) && u.frame == t.frame
    decreases |t.samples|
  {
    if count > 0 && t.samples != [] {
      var n := |t.samples| - 1;
      MoreFrames(n, t.frame);
      DropFramewise(t.(samples := t.samples[..n], total := t.total - t.samples[n].duration), mdat - t.samples[n].bytes, count - 1);
    }
  }

  // Whatever a write stores, inserts or drops, every sample of an audio track lasts one frame, and the total counts one
  // frame for each more and each less.
  lemma {:induction false} AudioWrite(t: Track, mdat: nat, data: bytes, pts: int, dts: int)
    requires Sane(t) && Sum(t.samples) <= mdat && t.kind.Audio? && Framewise(t)
    ensures var u := WriteTrack(t, mdat, data, pts, dts).track; Framewise(u) && Ahead(u) == Ahead(t)
  {
    hide Put, Timed, Framewise, Ahead, Insert, Drop, InBuffer, Sum, Lost, Trunc, Int32;
    if data != [] {
      PutSum(t, mdat, data, pts, dts);
      PutIn(t, mdat, data, pts, dts);
      PutKeepsFormat(t, mdat, data, pts, dts);
      PutFramewise(t, mdat, data, pts, dts);
      RepairFramewise(Put(t, mdat, data, pts, dts), mdat + |data|);
    }
  }

  lemma {:induction false} RepairFramewise(t: Track, mdat: nat)
    requires t.samples != [] && t.frame > 0 && InBuffer(t) && Sum(t.samples) <= mdat && Framewise(Timed(t))
    ensures var u := Repaired(t, mdat).track; Framewise(u) && Ahead(u) == Ahead(Timed(t))
  {
    LastIn(t);
    hide Timed, Framewise, Ahead, Insert, Drop, InBuffer, Sum, Lost, Trunc, Int32;
    var count := Int32(Trunc(Lost(t), t.frame));
    if t.aac && Lost(t) >= 2 * t.frame && count < MAX_REPAIR {
      var silence := if t.silence != [] then t.silence else Data(t, t.samples[|t.samples| - 1]);
      InsertFramewise(Timed(t), mdat, silence, count, t.start + t.total);
    } else if t.aac && Lost(t) <= -2 * t.frame && -count < MAX_REPAIR {
      DropFramewise(Timed(t), mdat, -count);
    }
  }
}
