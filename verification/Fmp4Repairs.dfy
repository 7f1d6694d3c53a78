/** What a write answers, and how many frames a repair inserts or drops, and when. */
module Fmp4Repairs {
  import opened Bytes
  import opened Fmp4
  import opened Fmp4Times
  import opened Fmp4Buffer
  import L = Fmp4Layout

  // ---------------------------------------------------------------------------
  // Answers

  // A track that does not exist and a sample without bytes are refused, and change nothing.
  lemma {:induction false} WriteRefused(w: Writer, idx: int, data: bytes, pts: int, dts: int)
    requires Sound(w)
    ensures var r := Write(w, idx, data, pts, dts);
      && (!(0 <= idx < |w.tracks|) ==> r == Fmp4.Written(w, -2))
      && (0 <= idx < |w.tracks| && data == [] ==> r == Fmp4.Written(w, -22))
  {
    if 0 <= idx < |w.tracks| && data == [] {
      TotalAt(w.tracks, idx);
      assert w.tracks[idx := w.tracks[idx]] == w.tracks;
    }
  }

  // Only the track written to changes, and video is always taken.
  lemma {:induction false} OneTrack(w: Writer, idx: int, data: bytes, pts: int, dts: int)
    requires Sound(w) && 0 <= idx < |w.tracks| && data != []
    ensures var r := Write(w, idx, data, pts, dts);
      && |r.w.tracks| == |w.tracks|
      && (forall i :: 0 <= i < |w.tracks| && i != idx ==> r.w.tracks[i] == w.tracks[i])
      && (!w.tracks[idx].kind.Audio? ==> r.result == 0)
  {
    hide Put, Repaired, Spaced, Sum, InBuffer;
    TotalAt(w.tracks, idx);
    PutSum(w.tracks[idx], w.mdat, data, pts, dts);
    PutIn(w.tracks[idx], w.mdat, data, pts, dts);
  }

  // ---------------------------------------------------------------------------
  // Frames dropped

  lemma {:induction false} Neg(lost: int, frame: nat)
    requires frame > 0 && lost <= 0
    ensures Trunc(lost, frame) == -Trunc(-lost, frame)
  {
  }

  lemma {:induction false} Int32Neg(v: int)
    requires -0x8000_0000 <= v <= 0
    ensures Int32(v) == v
  {
  }

  // A frame that comes two frames or more too early drops as many whole frames as it is early, itself first, as far as
  // there are any; 4096 frames or more are refused.
  lemma {:induction false} OverlapDropped(t: Track, mdat: nat) returns (count: nat)
    requires t.samples != [] && t.frame > 0 && InBuffer(t) && Sum(t.samples) <= mdat && t.aac
    requires -0x8000_0000 < Lost(t) <= -2 * t.frame
    ensures count * t.frame <= -Lost(t) < count * t.frame + t.frame
    ensures var r, u := Repaired(t, mdat), Timed(t);
      if count >= 4096 then r == Outcome(u, mdat, -7)
      else r.result == 0 && r.track.samples == u.samples[..if count <= |t.samples| then |t.samples| - count else 0]
  {
    hide Sum, InBuffer, Drop, Timed;
    var lost, u := Lost(t), Timed(t);
    Neg(lost, t.frame);
    Gap(-lost, t.frame);
    CountBound(-lost, t.frame);
    var c: int := Trunc(-lost, t.frame);
    Int32Neg(-c);
    count := c;
    TimedSum(t);
    TimedCount(t);
    if count < 4096 { DropPrefix(u, mdat, count); }
  }

  lemma {:induction false} TimedCount(t: Track)
    requires t.samples != []
    ensures |Timed(t).samples| == |t.samples|
  {
  }

  // A frame that is less than two frames off is kept as it is, and so is one of any other format than AAC.
  lemma {:induction false} OnTimeKept(t: Track, mdat: nat)
    requires t.samples != [] && t.frame > 0 && InBuffer(t) && Sum(t.samples) <= mdat
    requires !t.aac || -2 * t.frame < Lost(t) < 2 * t.frame
    ensures Repaired(t, mdat) == Outcome(Timed(t), mdat, 0)
  {
    hide Timed, Sum, InBuffer;
  }

  // ---------------------------------------------------------------------------
  // Frames inserted

  predicate FrameAt(t: Track, s: Sample, at: int) {
    s.duration == t.frame && s.pts == s.dts == Trunc(at * t.timescale, 1000)
  }

  lemma {:induction false} InsertOne(t: Track, mdat: nat, silence: bytes, at: int)
    requires silence != []
    ensures Put(t, mdat, silence, at, at).samples != []
    ensures var u, n := Timed(Put(t, mdat, silence, at, at)), |t.samples|;
      && |u.samples| == n + 1 && SameTimes(u.samples[..n], t.samples) && FrameAt(t, u.samples[n], at)
      && u.frame == t.frame && u.timescale == t.timescale
  {
    hide Put, Trunc;
    PutTimes(t, mdat, silence, at, at);
    PutKeepsFormat(t, mdat, silence, at, at);
  }

  lemma {:induction false} InsertNext(t: Track, mdat: nat, silence: bytes, count: nat, at: int)
    requires silence != []
    ensures Insert(t, mdat, silence, 0, at).track == t
    ensures Put(t, mdat, silence, at, at).samples != []
    ensures count > 0 ==>
      Insert(t, mdat, silence, count, at)
        == Insert(Timed(Put(t, mdat, silence, at, at)), mdat + |silence|, silence, count - 1, at + t.frame)
  {
    hide Put, Timed;
    InsertOne(t, mdat, silence, at);
  }

  lemma {:induction false} FramesOn(
    t: Track, a: seq<Sample>, b: seq<Sample>, c: seq<Sample>, count: nat, at: int)
    requires count > 0 && |b| == |a| + 1 && SameTimes(b[..|a|], a) && FrameAt(t, b[|a|], at)
    requires |c| == |b| + count - 1 && SameTimes(c[..|b|], b)
    requires forall k :: 0 <= k < count - 1 ==> FrameAt(t, c[|b| + k], at + t.frame + k * t.frame)
    ensures |c| == |a| + count && SameTimes(c[..|a|], a)
    ensures forall k :: 0 <= k < count ==> FrameAt(t, c[|a| + k], at + k * t.frame)
  {
    hide Trunc;
    assert forall i :: 0 <= i < |b| ==> c[..|b|][i] == c[i];
    assert forall i :: 0 <= i < |a| ==> c[..|a|][i] == c[i] && b[..|a|][i] == b[i];
    forall k | 0 <= k < count ensures FrameAt(t, c[|a| + k], at + k * t.frame) {
      if k > 0 {
        LaterFrame(at, k, t.frame);
        assert FrameAt(t, c[|b| + (k - 1)], at + t.frame + (k - 1) * t.frame);
      }
    }
  }

  // The samples held before an insertion keep their times; the inserted ones are one frame long, and their times are
  // those of a gapless continuation from `at`, scaled from milliseconds to ticks once more.
  lemma {:induction false} InsertTimes(t: Track, mdat: nat, silence: bytes, count: nat, at: int)
    requires silence != []
    ensures var u, n := Insert(t, mdat, silence, count, at).track, |t.samples|;
      && |u.samples| == n + count && SameTimes(u.samples[..n], t.samples)
      && forall k :: 0 <= k < count ==> FrameAt(t, u.samples[n + k], at + k * t.frame)
    decreases count
  {
    hide Put, Trunc, Timed, Insert, SameTimes;
    var n := |t.samples|;
    InsertNext(t, mdat, silence, count, at);
    if count == 0 {
      Itself(t.samples);
    } else {
      InsertOne(t, mdat, silence, at);
      var u := Timed(Put(t, mdat, silence, at, at));
      var v := Insert(u, mdat + |silence|, silence, count - 1, at + t.frame).track;
      InsertTimes(u, mdat + |silence|, silence, count - 1, at + t.frame);
      FramesOn(t, t.samples, u.samples, v.samples, count, at);
    }
  }

  lemma {:induction false} Itself(samples: seq<Sample>)
    ensures SameTimes(samples[..|samples|], samples)
  {
  }

  lemma {:induction false} LaterFrame(at: int, k: nat, frame: nat)
    requires k > 0
    ensures at + k * frame == at + frame + (k - 1) * frame
  {
    assert k * frame == (k - 1) * frame + frame;
  }

  lemma {:induction false} ScaledTwice(v: nat, scale: nat)
    requires v >= 1000
    ensures Trunc(v * scale, 1000) == v <==> scale == 1000
  {
    if scale > 1000 {
      More(v, scale, 1000);
    } else if scale < 1000 {
      More(v, 1000, scale);
    }
  }

  lemma {:induction false} More(v: nat, a: nat, b: nat)
    requires v >= 1000 && a > b
    ensures v * a >= v * b + 1000
  {
    Spread(v, b, a - b);
    AtLeast(v, a - b);
  }

  lemma {:induction false} Spread(v: nat, b: nat, d: nat)
    ensures v * (b + d) == v * b + v * d
  {
  }

  lemma {:induction false} AtLeast(v: nat, d: nat)
    requires d >= 1
    ensures v * d >= v
  {
    if d > 1 {
      AtLeast(v, d - 1);
      Spread(v, d - 1, 1);
    }
  }

  // So an inserted frame is where the gap is, from the thousandth tick on, exactly when a tick is a millisecond.
  lemma {:induction false} InsertedInPlace(t: Track, mdat: nat, silence: bytes, count: nat, at: int, k: nat)
    requires silence != [] && k < count && at + k * t.frame >= 1000
    ensures var u, n := Insert(t, mdat, silence, count, at).track, |t.samples|;
      |u.samples| == n + count && (u.samples[n + k].dts == at + k * t.frame <==> t.timescale == 1000)
  {
    hide Insert, Trunc;
    InsertTimes(t, mdat, silence, count, at);
    ScaledTwice(at + k * t.frame, t.timescale);
  }

  // ---------------------------------------------------------------------------
  // Saves

  // A save with media leaves every track without samples and its buffer unused; audio goes on from the time where it
  // was.
  lemma {:induction false} SavedTrack(w: Writer, next: int, i: nat)
    requires Sound(w) && w.mdat >= 1 && i < |w.tracks|
    ensures var r := L.Save(w, next).w;
      && |r.tracks| == |w.tracks| && r.mdat == 0
      && var u, t := r.tracks[i], w.tracks[i];
         && u.samples == [] && u.used == 0 && u.cursor == 0
         && u == t.(samples := [], used := 0, cursor := 0, total := u.total)
         && (!t.kind.Video? || t.samples == [] ==> u.total == t.total)
  {
    hide L.AllPayload, Sum;
    var c := L.AllClosed(w.tracks, next);
    L.AllPlacedAt(c, i);
  }
}
