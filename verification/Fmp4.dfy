/** What writes, repairs and saves do to the samples of a fragmented MP4. */
module Fmp4 {
  import opened Bytes

  const ENOENT := 2
  const E2BIG := 7
  const EINVAL := 22
  const MAX_REPAIR := 4096

  datatype Kind = Audio | Video | Other

  // `data` is where the sample starts in its track's buffer.
  datatype Sample = Sample(bytes: nat, pts: int, dts: int, duration: nat, offset: nat, data: nat)

  // Of a buffer, the first `used` bytes are taken; `silence` is the built-in silent frame for the track's format.
  datatype Track = Track(
    kind: Kind, timescale: nat, aac: bool, frame: nat, silence: bytes, samples: seq<Sample>, started: bool, start: int,
    total: int, buffer: bytes, used: nat, cursor: nat)

  datatype Writer = Writer(tracks: seq<Track>, mdat: nat)

  // Division as in C.
  function Trunc(a: int, b: int): int
    requires b > 0
  {
    if a >= 0 then a / b else -(-a / b)
  }

  function Int32(v: int): int {
    var u := v % POW32;
    if u >= 0x8000_0000 then u - POW32 else u
  }

  function Sum(samples: seq<Sample>): nat {
    if samples == [] then 0 else Sum(samples[..|samples| - 1]) + samples[|samples| - 1].bytes
  }

  function Total(tracks: seq<Track>): nat {
    if tracks == [] then 0 else Total(tracks[..|tracks| - 1]) + Sum(tracks[|tracks| - 1].samples)
  }

  // The byte count that sizes the mdat box is the bytes of all held samples.
  predicate Balanced(w: Writer) { w.mdat == Total(w.tracks) }

  // ---------------------------------------------------------------------------
  // One sample more

  // All samples back to back from the front of the buffer.
  function Relocated(samples: seq<Sample>): (r: seq<Sample>)
    ensures |r| == |samples|
  {
    if samples == [] then []
    else
      var init, s := samples[..|samples| - 1], samples[|samples| - 1];
      Relocated(init) + [s.(data := Sum(init))]
  }

  function Zeros(n: nat): (z: bytes)
    ensures |z| == n
  {
    seq(n, _ => 0)
  }

  predicate Grows(t: Track, n: nat) { t.used + n > |t.buffer| }

  // The buffer at least doubles, and the samples are found again by their lengths.
  function Grown(t: Track, n: nat): Track
    requires Grows(t, n)
  {
    var size := if t.used + n < 2 * |t.buffer| then 2 * |t.buffer| else t.used + n;
    t.(buffer := t.buffer + Zeros(size - |t.buffer|), samples := Relocated(t.samples))
  }

  function Stored(t: Track, data: bytes): bytes
    requires !Grows(t, |data|)
  {
    t.buffer[..t.used] + data + t.buffer[t.used + |data|..]
  }

  // The length field of a sample has 32 bits.
  function Put(t: Track, mdat: nat, data: bytes, pts: int, dts: int): (r: Track)
    requires data != []
  {
    var g := if Grows(t, |data|) then Grown(t, |data|) else t;
    var s := Sample(|data| % POW32, Trunc(pts * t.timescale, 1000), Trunc(dts * t.timescale, 1000), 0, mdat, g.used);
    g.(samples := g.samples + [s], buffer := Stored(g, data), used := g.used + |data|,
      started := true, start := if t.started then t.start else s.dts)
  }

  // ---------------------------------------------------------------------------
  // A write, with what keeps audio in step

  datatype Outcome = Outcome(track: Track, mdat: nat, result: int)

  // The last sample gets the length of a frame.
  function Timed(t: Track): Track
    requires t.samples != []
  {
    var n := |t.samples| - 1;
    t.(samples := t.samples[n := t.samples[n].(duration := t.frame)], total := t.total + t.frame)
  }

  function Insert(t: Track, mdat: nat, silence: bytes, count: int, dts: int): Outcome
    decreases count
  {
    if count <= 0 then Outcome(t, mdat, 0)
    else if silence == [] then Outcome(t, mdat, -EINVAL)
    else Insert(Timed(Put(t, mdat, silence, dts, dts)), mdat + |silence|, silence, count - 1, dts + t.frame)
  }

  function Drop(t: Track, mdat: int, count: int): (r: (Track, int))
    decreases |t.samples|
  {
    if count <= 0 || t.samples == [] then (t, mdat)
    else
      var n := |t.samples| - 1;
      Drop(t.(samples := t.samples[..n], total := t.total - t.samples[n].duration), mdat - t.samples[n].bytes, count - 1)
  }

  predicate InBuffer(t: Track) { t.used <= |t.buffer| && Sum(t.samples) <= t.used && SamplesIn(t.samples, t.used) }

  predicate SamplesIn(samples: seq<Sample>, used: nat) {
    samples == [] || (SamplesIn(samples[..|samples| - 1], used)
                      && samples[|samples| - 1].data + samples[|samples| - 1].bytes <= used)
  }

  function Data(t: Track, s: Sample): bytes
    requires s.data + s.bytes <= |t.buffer|
  {
    t.buffer[s.data..s.data + s.bytes]
  }

  // How far the sample just stored is from where the frames so far end.
  function Lost(t: Track): int
    requires t.samples != []
  {
    t.samples[|t.samples| - 1].dts - (t.start + t.total)
  }

  // After a new sample of an audio track: silence for a gap of two frames or more, samples dropped for an overlap.
  function Repaired(t: Track, mdat: nat): Outcome
    requires t.samples != [] && t.frame > 0 && InBuffer(t) && Sum(t.samples) <= mdat
  {
    var lost, u := Lost(t), Timed(t);
    if t.aac && lost >= 2 * t.frame then
      var count := Int32(Trunc(lost, t.frame));
      if count >= MAX_REPAIR then Outcome(u, mdat, -E2BIG)
      else
        LastIn(t);
        var silence := if t.silence != [] then t.silence else Data(t, t.samples[|t.samples| - 1]);
        Insert(u, mdat, silence, count, t.start + t.total)
    else if t.aac && lost <= -2 * t.frame then
      var count := -Int32(Trunc(lost, t.frame));
      if count >= MAX_REPAIR then Outcome(u, mdat, -E2BIG)
      else
        TimedSum(t);
        DropBound(u, mdat, count);
        var d := Drop(u, mdat, count);
        Outcome(d.0, d.1, 0)
    else Outcome(u, mdat, 0)
  }

  // After a new sample of a video track, the one before it gets its duration.
  function Spaced(t: Track): Track
    requires t.samples != []
  {
    var n := |t.samples| - 2;
    if n < 0 then t
    else
      var gap := t.samples[n + 1].dts - t.samples[n].dts;
      var d := if gap > 0 then gap % POW32 else 0;
      t.(samples := t.samples[n := t.samples[n].(duration := d)], total := t.total + d)
  }

  lemma {:induction false} LastIn(t: Track)
    requires t.samples != [] && InBuffer(t)
    ensures var s := t.samples[|t.samples| - 1]; s.data + s.bytes <= |t.buffer|
  {
  }

  lemma {:induction false} SumSet(samples: seq<Sample>, i: nat, s: Sample)
    requires i < |samples| && s.bytes == samples[i].bytes
    ensures Sum(samples[i := s]) == Sum(samples)
    decreases |samples|
  {
    var n := |samples| - 1;
    if i < n {
      SumSet(samples[..n], i, s);
      assert samples[i := s][..n] == samples[..n][i := s];
    } else {
      assert samples[i := s][..n] == samples[..n];
    }
  }

  lemma {:induction false} TimedSum(t: Track)
    requires t.samples != []
    ensures Sum(Timed(t).samples) == Sum(t.samples)
  {
    var n := |t.samples| - 1;
    SumSet(t.samples, n, t.samples[n].(duration := t.frame));
  }

  lemma {:induction false} DropBound(t: Track, mdat: int, count: int)
    ensures Drop(t, mdat, count).1 == mdat - Sum(t.samples) + Sum(Drop(t, mdat, count).0.samples)
    decreases |t.samples|
  {
    if count > 0 && t.samples != [] {
      var n := |t.samples| - 1;
      DropBound(t.(samples := t.samples[..n], total := t.total - t.samples[n].duration), mdat - t.samples[n].bytes, count - 1);
    }
  }

  // ---------------------------------------------------------------------------
  // The writer

  predicate Sane(t: Track) { InBuffer(t) && |t.silence| < POW32 && (t.kind.Audio? ==> t.frame > 0) }

  predicate Sound(w: Writer) { Total(w.tracks) <= w.mdat && AllSane(w.tracks) }

  predicate AllSane(tracks: seq<Track>) { forall i :: 0 <= i < |tracks| ==> Sane(tracks[i]) }

  datatype Written = Written(w: Writer, result: int)

  // What a write makes of one track and of the byte count.
  function WriteTrack(t: Track, mdat: nat, data: bytes, pts: int, dts: int): Outcome
    requires Sane(t) && Sum(t.samples) <= mdat
  {
    if data == [] then Outcome(t, mdat, -EINVAL)
    else
      PutSum(t, mdat, data, pts, dts);
      PutIn(t, mdat, data, pts, dts);
      var u := Put(t, mdat, data, pts, dts);
      match t.kind
      case Audio => Repaired(u, mdat + |data|)
      case Video => Outcome(Spaced(u), mdat + |data|, 0)
      case Other => Outcome(u, mdat + |data|, 0)
  }

  function Write(w: Writer, idx: int, data: bytes, pts: int, dts: int): Written
    requires Sound(w)
  {
    if idx < 0 || idx >= |w.tracks| then Written(w, -ENOENT)
    else
      TotalAt(w.tracks, idx);
      var r := WriteTrack(w.tracks[idx], w.mdat, data, pts, dts);
      Written(Writer(w.tracks[idx := r.track], r.mdat), r.result)
  }

  lemma {:induction false} TotalAt(tracks: seq<Track>, i: nat)
    requires i < |tracks|
    ensures Sum(tracks[i].samples) <= Total(tracks)
    decreases |tracks|
  {
    if i < |tracks| - 1 { TotalAt(tracks[..|tracks| - 1], i); }
  }

  lemma {:induction false} TotalSet(tracks: seq<Track>, i: nat, t: Track)
    requires i < |tracks|
    ensures Total(tracks[i := t]) == Total(tracks) - Sum(tracks[i].samples) + Sum(t.samples)
    decreases |tracks|
  {
    var n := |tracks| - 1;
    if i < n {
      TotalSet(tracks[..n], i, t);
      assert tracks[i := t][..n] == tracks[..n][i := t];
    } else {
      assert tracks[i := t][..n] == tracks[..n];
    }
  }

  // ---------------------------------------------------------------------------
  // What a new sample changes

  lemma {:induction false} SumSnoc(samples: seq<Sample>, s: Sample)
    ensures Sum(samples + [s]) == Sum(samples) + s.bytes
  {
    assert (samples + [s])[..|samples|] == samples;
  }

  lemma {:induction false} RelocatedSum(samples: seq<Sample>)
    ensures Sum(Relocated(samples)) == Sum(samples)
    decreases |samples|
  {
    if samples != [] {
      var init, s := samples[..|samples| - 1], samples[|samples| - 1];
      RelocatedSum(init);
      SumSnoc(Relocated(init), s.(data := Sum(init)));
    }
  }

  lemma {:induction false} PutSum(t: Track, mdat: nat, data: bytes, pts: int, dts: int)
    requires data != []
    ensures Sum(Put(t, mdat, data, pts, dts).samples) == Sum(t.samples) + |data| % POW32
  {
    hide Sum, Relocated;
    RelocatedSum(t.samples);
    var g := if Grows(t, |data|) then Grown(t, |data|) else t;
    var r := Put(t, mdat, data, pts, dts);
    SumSnoc(g.samples, r.samples[|g.samples|]);
  }

  lemma {:induction false} InSnoc(samples: seq<Sample>, s: Sample, used: nat)
    ensures SamplesIn(samples + [s], used) == (SamplesIn(samples, used) && s.data + s.bytes <= used)
  {
    assert (samples + [s])[..|samples|] == samples;
  }

  lemma {:induction false} InMore(samples: seq<Sample>, used: nat, more: nat)
    requires SamplesIn(samples, used) && used <= more
    ensures SamplesIn(samples, more)
    decreases |samples|
  {
    if samples != [] { InMore(samples[..|samples| - 1], used, more); }
  }

  lemma {:induction false} RelocatedIn(samples: seq<Sample>)
    ensures SamplesIn(Relocated(samples), Sum(samples))
    decreases |samples|
  {
    if samples != [] {
      var init, s := samples[..|samples| - 1], samples[|samples| - 1];
      RelocatedIn(init);
      InMore(Relocated(init), Sum(init), Sum(samples));
      InSnoc(Relocated(init), s.(data := Sum(init)), Sum(samples));
    }
  }

  lemma {:induction false} PutIn(t: Track, mdat: nat, data: bytes, pts: int, dts: int)
    requires data != [] && InBuffer(t)
    ensures InBuffer(Put(t, mdat, data, pts, dts)) && |Put(t, mdat, data, pts, dts).samples| == |t.samples| + 1
  {
    var g := if Grows(t, |data|) then Grown(t, |data|) else t;
    var r := Put(t, mdat, data, pts, dts);
    PutSum(t, mdat, data, pts, dts);
    if Grows(t, |data|) {
      RelocatedIn(t.samples);
      InMore(g.samples, Sum(t.samples), t.used);
    }
    hide Sum, Relocated, SamplesIn;
    InMore(g.samples, t.used, r.used);
    InSnoc(g.samples, r.samples[|g.samples|], r.used);
  }

  lemma {:induction false} InSet(samples: seq<Sample>, i: nat, s: Sample, used: nat)
    requires i < |samples| && s.bytes == samples[i].bytes && s.data == samples[i].data
    ensures SamplesIn(samples[i := s], used) == SamplesIn(samples, used)
    decreases |samples|
  {
    var n := |samples| - 1;
    if i < n {
      InSet(samples[..n], i, s, used);
      assert samples[i := s][..n] == samples[..n][i := s];
    } else {
      assert samples[i := s][..n] == samples[..n];
    }
  }

  lemma {:induction false} TimedSane(t: Track)
    requires t.samples != []
    ensures Sane(Timed(t)) == Sane(t) && Sum(Timed(t).samples) == Sum(t.samples)
  {
    var n := |t.samples| - 1;
    TimedSum(t);
    InSet(t.samples, n, t.samples[n].(duration := t.frame), t.used);
  }

  lemma {:induction false} SpacedSane(t: Track)
    requires t.samples != []
    ensures Sane(Spaced(t)) == Sane(t) && Sum(Spaced(t).samples) == Sum(t.samples)
  {
    hide Sum, SamplesIn;
    var n := |t.samples| - 2;
    if n >= 0 {
      var s := Spaced(t).samples[n];
      SumSet(t.samples, n, s);
      InSet(t.samples, n, s, t.used);
    }
  }

  // Silence counts like any other sample.
  lemma {:induction false} InsertSane(t: Track, mdat: nat, silence: bytes, count: int, dts: int)
    requires Sane(t) && |silence| < POW32
    ensures var r := Insert(t, mdat, silence, count, dts);
      Sane(r.track) && r.mdat + Sum(t.samples) == mdat + Sum(r.track.samples)
    decreases count
  {
    hide Sum, InBuffer, Put, Timed;
    if count > 0 && silence != [] {
      var u := Put(t, mdat, silence, dts, dts);
      PutSum(t, mdat, silence, dts, dts);
      PutIn(t, mdat, silence, dts, dts);
      PutKeepsFormat(t, mdat, silence, dts, dts);
      TimedSane(u);
      InsertSane(Timed(u), mdat + |silence|, silence, count - 1, dts + t.frame);
    }
  }

  lemma {:induction false} PutKeepsFormat(t: Track, mdat: nat, data: bytes, pts: int, dts: int)
    requires data != []
    ensures var r := Put(t, mdat, data, pts, dts);
      r.kind == t.kind && r.aac == t.aac && r.frame == t.frame && r.silence == t.silence && r.timescale == t.timescale
      && r.total == t.total
  {
  }

  lemma {:induction false} DropSane(t: Track, mdat: int, count: int)
    requires Sane(t)
    ensures Sane(Drop(t, mdat, count).0)
    decreases |t.samples|
  {
    if count > 0 && t.samples != [] {
      var n := |t.samples| - 1;
      DropSane(t.(samples := t.samples[..n], total := t.total - t.samples[n].duration), mdat - t.samples[n].bytes, count - 1);
    }
  }

  // The repair of an audio track keeps the difference between count and samples.
  lemma {:induction false} RepairedSane(t: Track, mdat: nat)
    requires t.samples != [] && Sane(t) && t.kind.Audio? && Sum(t.samples) <= mdat
    requires t.samples[|t.samples| - 1].bytes < POW32
    ensures var r := Repaired(t, mdat); Sane(r.track) && r.mdat + Sum(t.samples) == mdat + Sum(r.track.samples)
  {
    hide Sum, SamplesIn, Timed, Drop, Insert, Lost, Trunc, Int32;
    TimedSane(t);
    var lost, u := Lost(t), Timed(t);
    if t.aac && lost >= 2 * t.frame {
      LastIn(t);
      var silence := if t.silence != [] then t.silence else Data(t, t.samples[|t.samples| - 1]);
      InsertSane(u, mdat, silence, Int32(Trunc(lost, t.frame)), t.start + t.total);
    } else if t.aac && lost <= -2 * t.frame {
      DropBound(u, mdat, -Int32(Trunc(lost, t.frame)));
      DropSane(u, mdat, -Int32(Trunc(lost, t.frame)));
    }
  }

  lemma {:induction false} PutLast(t: Track, mdat: nat, data: bytes, pts: int, dts: int)
    requires data != []
    ensures var r := Put(t, mdat, data, pts, dts); r.samples != [] && r.samples[|r.samples| - 1].bytes == |data| % POW32
  {
  }

  lemma {:induction false} WriteTrackKeeps(t: Track, mdat: nat, data: bytes, pts: int, dts: int)
    requires Sane(t) && Sum(t.samples) <= mdat
    ensures var r := WriteTrack(t, mdat, data, pts, dts);
      Sane(r.track) && r.mdat + Sum(t.samples) + |data| % POW32 == mdat + Sum(r.track.samples) + |data|
  {
    hide Sum, InBuffer, Put, Repaired, Spaced;
    if data != [] {
      var u := Put(t, mdat, data, pts, dts);
      PutSum(t, mdat, data, pts, dts);
      PutIn(t, mdat, data, pts, dts);
      PutKeepsFormat(t, mdat, data, pts, dts);
      PutLast(t, mdat, data, pts, dts);
      match t.kind
      case Audio => RepairedSane(u, mdat + |data|);
      case Video => SpacedSane(u);
      case Other =>
    }
  }

  // Whatever is inserted or dropped and whatever error is answered, a write keeps the byte count equal to the bytes of
  // all held samples, exactly when the length of its data fits 32 bits.
  lemma {:induction false} WriteBalanced(w: Writer, idx: int, data: bytes, pts: int, dts: int)
    requires Sound(w)
    ensures Sound(Write(w, idx, data, pts, dts).w)
    ensures Balanced(w) ==>
      (Balanced(Write(w, idx, data, pts, dts).w) <==> !(0 <= idx < |w.tracks|) || |data| < POW32)
  {
    hide Sum, Total, Sane, WriteTrack;
    if 0 <= idx < |w.tracks| {
      var t := w.tracks[idx];
      TotalAt(w.tracks, idx);
      WriteTrackKeeps(t, w.mdat, data, pts, dts);
      TotalSet(w.tracks, idx, WriteTrack(t, w.mdat, data, pts, dts).track);
    }
  }
}
