/** The fragmented-MP4 writer as an object: sample lists, counters and cursors updated by its loops. */
module Fmp4Writer {
  import opened Bytes
  import opened Fmp4
  import opened Fmp4Layout

  lemma {:induction false} PrefixStep(samples: seq<Sample>, i: nat)
    requires i < |samples|
    ensures var (a, b) := (samples[..i], samples[..i + 1]);
      && Sum(b) == Sum(a) + samples[i].bytes
      && Relocated(b) == Relocated(a) + [samples[i].(data := Sum(a))]
      && forall n: nat :: Placed(b, n) == Placed(a, n) + [samples[i].(offset := n + Sum(a))]
  {
    assert samples[..i + 1][..i] == samples[..i];
  }

  lemma {:induction false} NoSamples(n: nat)
    ensures Sum([]) == 0 && Relocated([]) == [] && Placed([], n) == []
  {
  }

  // Find the samples of a grown buffer again by their lengths.
  method Relocate(samples: seq<Sample>) returns (r: seq<Sample>)
    ensures r == Relocated(samples)
  {
    hide Sum, Relocated, Placed;
    r := samples;
    var i, offset := 0, 0;
    NoSamples(0);
    assert samples[..0] == [];
    while i < |samples|
      invariant i <= |samples| == |r| && offset == Sum(samples[..i])
      invariant r == Relocated(samples[..i]) + samples[i..]
    {
      PrefixStep(samples, i);
      r := r[i := r[i].(data := offset)];
      offset := offset + samples[i].bytes;
      i := i + 1;
    }
    assert samples[..i] == samples;
  }

  method MakeRoom(t: Track, n: nat) returns (r: Track)
    ensures r == (if Grows(t, n) then Grown(t, n) else t) && !Grows(r, n)
    ensures r.used == t.used && r.started == t.started && r.start == t.start
  {
    hide Relocated, Sum;
    r := t;
    var size := t.used + n;
    if size > |t.buffer| {
      if size < 2 * |t.buffer| { size := 2 * |t.buffer|; }
      var moved := Relocate(t.samples);
      r := r.(buffer := r.buffer + Zeros(size - |t.buffer|), samples := moved);
    }
  }

  method PutSample(t: Track, mdat: nat, data: bytes, pts: int, dts: int) returns (r: Track, count: nat, result: int)
    ensures result == if data == [] then -EINVAL else 0
    ensures r == if data == [] then t else Fmp4.Put(t, mdat, data, pts, dts)
    ensures count == mdat + |data|
  {
    if data == [] { return t, mdat, -EINVAL; }
    hide Relocated, Sum, Trunc, Grown;
    var sample := Sample(|data| % POW32, Trunc(pts * t.timescale, 1000), Trunc(dts * t.timescale, 1000), 0, mdat, t.used);
    r := MakeRoom(t, |data|);
    r := r.(buffer := r.buffer[..r.used] + data + r.buffer[r.used + |data|..], used := r.used + |data|);
    if !r.started { r := r.(started := true, start := sample.dts); }
    r := r.(samples := r.samples + [sample]);
    return r, mdat + |data|, 0;
  }

  method InsertSilence(t: Track, mdat: nat, silence: bytes, frames: int, from: int) returns (r: Track, count: nat, result: int)
    ensures Outcome(r, count, result) == Insert(t, mdat, silence, frames, from)
  {
    r, count, result := t, mdat, 0;
    var left, dts := frames, from;
    hide Fmp4.Put, Timed;
    while left > 0
      invariant left <= 0 ==> result == 0
      invariant result == 0 && Insert(t, mdat, silence, frames, from) == Insert(r, count, silence, left, dts)
      invariant r.frame == t.frame
    {
      if silence == [] { return r, count, -EINVAL; }
      FrameKept(r, count, silence, dts);
      r, count, result := PutSample(r, count, silence, dts, dts);
      r := Timed(r);
      left, dts := left - 1, dts + r.frame;
    }
  }

  lemma {:induction false} FrameKept(t: Track, mdat: nat, silence: bytes, dts: int)
    requires silence != []
    ensures var u := Fmp4.Put(t, mdat, silence, dts, dts); u.samples != [] && Timed(u).frame == u.frame == t.frame
  {
  }

  method DropSamples(t: Track, mdat: int, frames: int) returns (r: Track, count: int)
    ensures (r, count) == Drop(t, mdat, frames)
  {
    r, count := t, mdat;
    var left := frames;
    while left > 0 && r.samples != []
      invariant Drop(t, mdat, frames) == Drop(r, count, left)
      decreases |r.samples|
    {
      var n := |r.samples| - 1;
      var sample := r.samples[n];
      r := r.(samples := r.samples[..n], total := r.total - sample.duration);
      count := count - sample.bytes;
      left := left - 1;
    }
  }

  method Repair(t: Track, mdat: nat) returns (r: Track, count: nat, result: int)
    requires t.samples != [] && t.frame > 0 && InBuffer(t) && Sum(t.samples) <= mdat
    ensures Outcome(r, count, result) == Repaired(t, mdat)
  {
    hide Sum, SamplesIn, Insert, Drop;
    var fixed := t.start + t.total;
    var lost := t.samples[|t.samples| - 1].dts - fixed;
    r, count, result := Timed(t), mdat, 0;
    if t.aac && lost >= 2 * t.frame {
      var frames := Int32(Trunc(lost, t.frame));
      if frames >= MAX_REPAIR { return r, count, -E2BIG; }
      LastIn(t);
      var silence := if t.silence != [] then t.silence else Data(t, t.samples[|t.samples| - 1]);
      r, count, result := InsertSilence(r, mdat, silence, frames, fixed);
    } else if t.aac && lost <= -2 * t.frame {
      var frames := -Int32(Trunc(lost, t.frame));
      if frames >= MAX_REPAIR { return r, count, -E2BIG; }
      TimedSum(t);
      DropBound(r, mdat, frames);
      r, count := DropSamples(r, mdat, frames);
    }
  }

  // The offsets of a track's samples follow each other from `n` on.
  predicate LaidFrom(samples: seq<Sample>, n: nat) {
    forall k :: 0 <= k < |samples| ==> samples[k].offset == n + Sum(samples[..k])
  }

  lemma {:induction false} OneMore(buffer: bytes, samples: seq<Sample>, k: nat)
    requires SamplesIn(samples, |buffer|) && k < |samples|
    ensures SamplesIn(samples[..k], |buffer|) && SamplesIn(samples[..k + 1], |buffer|)
    ensures samples[k].data + samples[k].bytes <= |buffer|
    ensures Payload(buffer, samples[..k + 1]) == Payload(buffer, samples[..k]) + buffer[samples[k].data..samples[k].data + samples[k].bytes]
  {
    hide Sum, SamplesIn, Payload;
    PrefixIn(samples, k, |buffer|);
    PrefixIn(samples, k + 1, |buffer|);
    assert samples[..k + 1][..k] == samples[..k];
    PayloadSnoc(buffer, samples[..k + 1]);
  }

  lemma {:induction false} NoPayload(buffer: bytes)
    ensures SamplesIn([], |buffer|) && Payload(buffer, []) == []
  {
  }

  // The loop of a save over one track: samples are written as long as their offsets match what was written so far.
  method CopyMatching(t: Track, n: nat) returns (out: bytes, cursor: nat)
    requires SamplesIn(t.samples, |t.buffer|) && t.cursor <= |t.samples|
    ensures t.cursor <= cursor <= |t.samples|
    ensures cursor < |t.samples| ==> t.samples[cursor].offset != n + |out|
    ensures t.cursor == 0 && LaidFrom(t.samples, n) ==> cursor == |t.samples| && out == Payload(t.buffer, t.samples)
  {
    hide Sum, SamplesIn, Payload;
    out, cursor := [], t.cursor;
    ghost var placed := t.cursor == 0 && LaidFrom(t.samples, n);
    PrefixIn(t.samples, cursor, |t.buffer|);
    NoPayload(t.buffer);
    assert t.samples[..0] == [];
    while cursor < |t.samples| && n + |out| == t.samples[cursor].offset
      invariant t.cursor <= cursor <= |t.samples| && SamplesIn(t.samples[..cursor], |t.buffer|)
      invariant placed ==> out == Payload(t.buffer, t.samples[..cursor])
    {
      OneMore(t.buffer, t.samples, cursor);
      var s := t.samples[cursor];
      out := out + t.buffer[s.data..s.data + s.bytes];
      cursor := cursor + 1;
    }
    assert t.samples[..|t.samples|] == t.samples;
  }

  // Offsets for all samples, track after track.
  method PlaceTrack(samples: seq<Sample>, from: nat) returns (r: seq<Sample>, n: nat)
    ensures r == Placed(samples, from) && n == from + Sum(samples)
  {
    hide Sum, Relocated, Placed;
    r, n := samples, from;
    var j := 0;
    NoSamples(from);
    assert samples[..0] == [];
    while j < |samples|
      invariant j <= |samples| == |r| && n == from + Sum(samples[..j])
      invariant r == Placed(samples[..j], from) + samples[j..]
    {
      PrefixStep(samples, j);
      r := r[j := r[j].(offset := n)];
      n := n + samples[j].bytes;
      j := j + 1;
    }
    assert samples[..j] == samples;
  }

  lemma {:induction false} PlacedStep(tracks: seq<Track>, i: nat)
    requires i < |tracks|
    ensures var (a, b) := (tracks[..i], tracks[..i + 1]);
      && AllPlaced(b) == AllPlaced(a) + [tracks[i].(samples := Placed(tracks[i].samples, Total(a)))]
      && Total(b) == Total(a) + Sum(tracks[i].samples)
  {
    assert tracks[..i + 1][..i] == tracks[..i];
  }

  lemma {:induction false} NonePlaced()
    ensures AllPlaced([]) == [] && Total([]) == 0
  {
  }

  method PlaceAll(tracks: seq<Track>) returns (r: seq<Track>)
    ensures r == AllPlaced(tracks)
  {
    hide Placed, AllPlaced, Total, Sum;
    r := tracks;
    var i, n := 0, 0;
    NonePlaced();
    assert tracks[..0] == [];
    while i < |tracks|
      invariant i <= |tracks| == |r| && n == Total(tracks[..i])
      invariant r == AllPlaced(tracks[..i]) + tracks[i..]
    {
      PlacedStep(tracks, i);
      var samples;
      samples, n := PlaceTrack(tracks[i].samples, n);
      r := r[i := r[i].(samples := samples)];
      i := i + 1;
    }
    assert tracks[..i] == tracks;
  }

  predicate AllLaid(tracks: seq<Track>) {
    && AllIn(tracks)
    && forall i :: 0 <= i < |tracks| ==> tracks[i].cursor == 0 && LaidFrom(tracks[i].samples, Total(tracks[..i]))
  }

  lemma {:induction false} TrackPayload(tracks: seq<Track>, i: nat)
    requires AllIn(tracks) && i < |tracks|
    ensures AllIn(tracks[..i]) && AllIn(tracks[..i + 1])
    ensures AllPayload(tracks[..i + 1]) == AllPayload(tracks[..i]) + Payload(tracks[i].buffer, tracks[i].samples)
  {
    assert tracks[..i + 1][..i] == tracks[..i];
  }

  // One pass over all tracks writes everything, in the order of the offsets.
  method Interleave(tracks: seq<Track>, mdat: nat) returns (out: bytes)
    requires AllLaid(tracks) && mdat == Total(tracks)
    ensures out == AllPayload(tracks)
  {
    hide Sum, Total, SamplesIn, Payload, AllPayload, LaidFrom;
    out := [];
    var rest := tracks;
    NothingYet(tracks);
    while |out| < mdat
      invariant (out == [] && rest == tracks) || out == AllPayload(tracks)
      decreases mdat - |out|
    {
      var i := 0;
      while i < |tracks|
        invariant i <= |tracks| == |rest| && AllIn(tracks[..i]) && out == AllPayload(tracks[..i])
        invariant forall j :: i <= j < |tracks| ==> rest[j] == tracks[j]
      {
        TrackPayload(tracks, i);
        var more, cursor := CopyMatching(rest[i], |out|);
        out := out + more;
        rest := rest[i := rest[i].(cursor := cursor)];
        i := i + 1;
      }
      assert tracks[..i] == tracks;
    }
  }

  lemma {:induction false} NothingYet(tracks: seq<Track>)
    requires AllIn(tracks)
    ensures AllIn(tracks[..0]) && AllPayload(tracks[..0]) == [] && (Total(tracks) == 0 ==> AllPayload(tracks) == [])
  {
  }

  // The same bytes at the same places.
  predicate SameData(a: seq<Sample>, b: seq<Sample>) {
    |a| == |b| && forall k :: 0 <= k < |a| ==> a[k].data == b[k].data && a[k].bytes == b[k].bytes
  }

  predicate SameTracks(a: seq<Track>, b: seq<Track>) {
    |a| == |b| && forall i :: 0 <= i < |a| ==> a[i].buffer == b[i].buffer && SameData(a[i].samples, b[i].samples)
  }

  lemma {:induction false} SameBytes(buffer: bytes, a: seq<Sample>, b: seq<Sample>)
    requires SameData(a, b)
    ensures Sum(a) == Sum(b) && SamplesIn(a, |buffer|) == SamplesIn(b, |buffer|)
    ensures SamplesIn(a, |buffer|) ==> Payload(buffer, a) == Payload(buffer, b)
    decreases |a|
  {
    if a != [] { SameBytes(buffer, a[..|a| - 1], b[..|b| - 1]); }
  }

  lemma {:induction false} SameMedia(a: seq<Track>, b: seq<Track>)
    requires SameTracks(a, b) && AllIn(a)
    ensures AllIn(b) && Total(a) == Total(b) && AllPayload(a) == AllPayload(b)
    decreases |a|
  {
    hide Sum, SamplesIn, Payload, SameData;
    forall i | 0 <= i < |b| ensures SamplesIn(b[i].samples, |b[i].buffer|) {
      assert a[i].buffer == b[i].buffer;
      SameBytes(b[i].buffer, a[i].samples, b[i].samples);
    }
    if a != [] {
      SameMedia(a[..|a| - 1], b[..|b| - 1]);
      SameBytes(a[|a| - 1].buffer, a[|a| - 1].samples, b[|b| - 1].samples);
    }
  }

  function Rewound(tracks: seq<Track>): (r: seq<Track>)
    ensures |r| == |tracks|
  {
    seq(|tracks|, i requires 0 <= i < |tracks| => tracks[i].(cursor := 0))
  }

  lemma {:induction false} ClosedData(t: Track, next: int)
    ensures Closed(t, next).buffer == t.buffer && SameData(t.samples, Closed(t, next).samples)
  {
  }

  lemma {:induction false} PlacedData(samples: seq<Sample>, n: nat)
    ensures SameData(samples, Placed(samples, n)) && LaidFrom(Placed(samples, n), n)
  {
    var p := Placed(samples, n);
    forall k | 0 <= k < |samples|
      ensures samples[k].data == p[k].data && samples[k].bytes == p[k].bytes && p[k].offset == n + Sum(samples[..k])
    {
      PlacedAt(samples, n, k);
    }
    forall k | 0 <= k < |samples| ensures Sum(p[..k]) == Sum(samples[..k]) { SameBytes([], p[..k], samples[..k]); }
  }

  lemma {:induction false} SamePrefix(a: seq<Track>, b: seq<Track>, i: nat)
    requires SameTracks(a, b) && i <= |a|
    ensures Total(a[..i]) == Total(b[..i])
    decreases i
  {
    hide Sum, SameData;
    if i > 0 {
      SamePrefix(a, b, i - 1);
      assert a[..i][..i - 1] == a[..i - 1] && b[..i][..i - 1] == b[..i - 1];
      assert a[i - 1].buffer == b[i - 1].buffer;
      SameBytes(a[i - 1].buffer, a[i - 1].samples, b[i - 1].samples);
    }
  }

  // Closing the last video samples and placing all samples lays them out, and moves no bytes.
  lemma {:induction false} ClosedLaid(tracks: seq<Track>, next: int)
    requires AllIn(tracks)
    ensures var laid := Rewound(AllPlaced(AllClosed(tracks, next)));
      AllLaid(laid) && Total(laid) == Total(tracks) && AllPayload(laid) == AllPayload(tracks)
  {
    hide Sum, Total, SamplesIn, Payload, AllPayload, LaidFrom, Placed, AllPlaced, Closed, AllIn;
    var c := AllClosed(tracks, next);
    var laid := Rewound(AllPlaced(c));
    forall i | 0 <= i < |tracks|
      ensures laid[i].buffer == tracks[i].buffer && SameData(tracks[i].samples, laid[i].samples)
      ensures LaidFrom(laid[i].samples, Total(c[..i]))
    {
      ClosedData(tracks[i], next);
      AllPlacedAt(c, i);
      PlacedData(c[i].samples, Total(c[..i]));
    }
    SameMedia(tracks, laid);
    ClosedSame(tracks, next);
    forall i | 0 <= i < |tracks| ensures Total(laid[..i]) == Total(c[..i]) {
      SamePrefix(tracks, laid, i);
      SamePrefix(tracks, c, i);
    }
  }

  lemma {:induction false} ClosedSame(tracks: seq<Track>, next: int)
    ensures SameTracks(tracks, AllClosed(tracks, next))
  {
    hide Closed, SameData;
    forall i | 0 <= i < |tracks| ensures SameData(tracks[i].samples, Closed(tracks[i], next).samples)
      && Closed(tracks[i], next).buffer == tracks[i].buffer { ClosedData(tracks[i], next); }
  }

  class WriterObject {
    var tracks: seq<Track>
    var mdat: nat

    ghost function Value(): Writer
      reads this
    {
      Writer(tracks, mdat)
    }

    constructor (tracks: seq<Track>)
      requires forall i :: 0 <= i < |tracks| ==> tracks[i].samples == [] && Sane(tracks[i])
      ensures Value() == Writer(tracks, 0) && Sound(Value()) && Balanced(Value())
    {
      this.tracks, mdat := tracks, 0;
      EmptiedTotal(tracks);
    }

    // Kept by every call: the count is the bytes of all held samples, as long as no length needs more than 32 bits.
    method Write(idx: int, data: bytes, pts: int, dts: int) returns (result: int)
      requires Sound(Value())
      modifies this
      ensures Written(Value(), result) == Fmp4.Write(old(Value()), idx, data, pts, dts)
      ensures Sound(Value()) && (old(Balanced(Value())) && |data| < POW32 ==> Balanced(Value()))
    {
      hide Sum, Total, SamplesIn, Fmp4.Put, Spaced, Repaired;
      WriteBalanced(Value(), idx, data, pts, dts);
      if idx < 0 || idx >= |tracks| { return -ENOENT; }
      var t := tracks[idx];
      TotalAt(tracks, idx);
      if data == [] { return -EINVAL; }
      PutSum(t, mdat, data, pts, dts);
      PutIn(t, mdat, data, pts, dts);
      PutKeepsFormat(t, mdat, data, pts, dts);
      t, mdat, result := PutSample(t, mdat, data, pts, dts);
      if t.kind.Audio? {
        t, mdat, result := Repair(t, mdat);
      } else if t.kind.Video? {
        t := Spaced(t);
      }
      tracks := tracks[idx := t];
    }

    // The media data written is all held samples, each at its offset; nothing is held afterwards.
    method SaveSegment(next: int) returns (media: bytes)
      requires Sound(Value()) && Balanced(Value())
      modifies this
      ensures Saved(Value(), media) == Save(old(Value()), next)
      ensures Sound(Value()) && Balanced(Value())
    {
      hide Sum, Total, SamplesIn, AllPlaced, AllPayload, Closed, Payload, AllLaid;
      SaveBalanced(Value(), next);
      if mdat < 1 { return []; }
      AllInBuffers(tracks);
      ghost var before := tracks;
      var i := 0;
      while i < |tracks|
        invariant i <= |tracks| == |before| && mdat == old(mdat)
        invariant forall j :: 0 <= j < |tracks| ==> tracks[j] == if j < i then Closed(before[j], next) else before[j]
      {
        tracks := tracks[i := Closed(tracks[i], next)];
        i := i + 1;
      }
      assert tracks == AllClosed(before, next);
      tracks := PlaceAll(tracks);
      ClosedLaid(before, next);
      tracks := Rewound(tracks);
      media := Interleave(tracks, mdat);
      tracks := AllEmptied(tracks);
      mdat := 0;
    }
  }
}
