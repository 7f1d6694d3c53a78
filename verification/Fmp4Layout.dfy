/** The media data of a fragment, and what a save writes and leaves. */
module Fmp4Layout {
  import opened Bytes
  import opened Fmp4

  // Offsets from `n` on, one sample behind the other.
  function Placed(samples: seq<Sample>, n: nat): (r: seq<Sample>)
    ensures |r| == |samples|
  {
    if samples == [] then []
    else
      var init, s := samples[..|samples| - 1], samples[|samples| - 1];
      Placed(init, n) + [s.(offset := n + Sum(init))]
  }

  // Track after track.
  function AllPlaced(tracks: seq<Track>): (r: seq<Track>)
    ensures |r| == |tracks|
    ensures forall i :: 0 <= i < |r| ==> |r[i].samples| == |tracks[i].samples|
  {
    if tracks == [] then []
    else
      var init, t := tracks[..|tracks| - 1], tracks[|tracks| - 1];
      AllPlaced(init) + [t.(samples := Placed(t.samples, Total(init)))]
  }

  // The bytes of a list of samples that lie in one buffer.
  function Payload(buffer: bytes, samples: seq<Sample>): (b: bytes)
    requires SamplesIn(samples, |buffer|)
    ensures |b| == Sum(samples)
  {
    if samples == [] then []
    else
      var init, s := samples[..|samples| - 1], samples[|samples| - 1];
      Payload(buffer, init) + buffer[s.data..s.data + s.bytes]
  }

  predicate AllIn(tracks: seq<Track>) { forall i :: 0 <= i < |tracks| ==> SamplesIn(tracks[i].samples, |tracks[i].buffer|) }

  function AllPayload(tracks: seq<Track>): (b: bytes)
    requires AllIn(tracks)
    ensures |b| == Total(tracks)
  {
    if tracks == [] then []
    else AllPayload(tracks[..|tracks| - 1]) + Payload(tracks[|tracks| - 1].buffer, tracks[|tracks| - 1].samples)
  }

  // The last sample of a video track gets a duration when its fragment is closed.
  function Closed(t: Track, next: int): Track {
    if t.samples == [] || !t.kind.Video? then t
    else
      var n := |t.samples| - 1;
      var last := t.samples[n].dts;
      var d := if next != 0 then Trunc(next * t.timescale, 1000) - last
               else if n > 0 then Trunc(last - t.samples[0].dts, n)
               else t.timescale / 30;
      t.(samples := t.samples[n := t.samples[n].(duration := d % POW32)], total := t.total + d)
  }

  function AllClosed(tracks: seq<Track>, next: int): (r: seq<Track>)
    ensures |r| == |tracks|
  {
    seq(|tracks|, i requires 0 <= i < |tracks| => Closed(tracks[i], next))
  }

  function Emptied(t: Track): Track { t.(samples := [], cursor := 0, used := 0) }

  function AllEmptied(tracks: seq<Track>): (r: seq<Track>)
    ensures |r| == |tracks|
  {
    seq(|tracks|, i requires 0 <= i < |tracks| => Emptied(tracks[i]))
  }

  datatype Saved = Saved(w: Writer, media: bytes)

  // Saving with nothing held writes nothing and changes nothing.
  function Save(w: Writer, next: int): Saved
    requires Sound(w)
  {
    if w.mdat < 1 then Saved(w, [])
    else
      AllInBuffers(w.tracks);
      Saved(Writer(AllEmptied(AllPlaced(AllClosed(w.tracks, next))), 0), AllPayload(w.tracks))
  }

  // ---------------------------------------------------------------------------
  // Lemmas

  lemma {:induction false} AllInBuffers(tracks: seq<Track>)
    requires AllSane(tracks)
    ensures AllIn(tracks)
  {
    forall i | 0 <= i < |tracks| ensures SamplesIn(tracks[i].samples, |tracks[i].buffer|) {
      assert Sane(tracks[i]);
      InMore(tracks[i].samples, tracks[i].used, |tracks[i].buffer|);
    }
  }

  lemma {:induction false} PlacedAt(samples: seq<Sample>, n: nat, k: nat)
    requires k < |samples|
    ensures Placed(samples, n)[k] == samples[k].(offset := n + Sum(samples[..k]))
    decreases |samples|
  {
    var init := samples[..|samples| - 1];
    if k < |init| {
      PlacedAt(init, n, k);
      assert init[..k] == samples[..k];
    }
  }

  lemma {:induction false} AllPlacedAt(tracks: seq<Track>, i: nat)
    requires i < |tracks|
    ensures AllPlaced(tracks)[i] == tracks[i].(samples := Placed(tracks[i].samples, Total(tracks[..i])))
    decreases |tracks|
  {
    var init := tracks[..|tracks| - 1];
    if i < |init| {
      AllPlacedAt(init, i);
      assert init[..i] == tracks[..i];
    }
  }

  lemma {:induction false} PrefixIn(samples: seq<Sample>, k: nat, used: nat)
    requires SamplesIn(samples, used) && k <= |samples|
    ensures SamplesIn(samples[..k], used) && Sum(samples[..k]) <= Sum(samples)
    ensures k < |samples| ==> samples[k].data + samples[k].bytes <= used && Sum(samples[..k]) + samples[k].bytes <= Sum(samples)
    decreases |samples|
  {
    if k == |samples| {
      assert samples[..k] == samples;
    } else {
      var init := samples[..|samples| - 1];
      PrefixIn(init, k, used);
      assert samples[..k] == init[..k];
    }
  }

  lemma {:induction false} PayloadSnoc(buffer: bytes, samples: seq<Sample>)
    requires SamplesIn(samples, |buffer|) && samples != []
    ensures var (init, s) := (samples[..|samples| - 1], samples[|samples| - 1]);
      && SamplesIn(init, |buffer|) && s.data + s.bytes <= |buffer| && Sum(samples) == Sum(init) + s.bytes
      && Payload(buffer, samples) == Payload(buffer, init) + buffer[s.data..s.data + s.bytes]
  {
  }

  lemma {:induction false} PayloadAt(buffer: bytes, samples: seq<Sample>, k: nat)
    requires SamplesIn(samples, |buffer|) && k < |samples|
    ensures SamplesIn(samples[..k], |buffer|) && samples[k].data + samples[k].bytes <= |buffer|
    ensures Sum(samples[..k]) + samples[k].bytes <= Sum(samples)
    ensures Payload(buffer, samples)[Sum(samples[..k])..Sum(samples[..k]) + samples[k].bytes]
         == buffer[samples[k].data..samples[k].data + samples[k].bytes]
    decreases |samples|
  {
    hide Sum, SamplesIn, Payload;
    PrefixIn(samples, k, |buffer|);
    PayloadSnoc(buffer, samples);
    var init, s := samples[..|samples| - 1], samples[|samples| - 1];
    if k < |init| {
      PayloadAt(buffer, init, k);
      assert init[..k] == samples[..k];
      Front(Payload(buffer, init), buffer[s.data..s.data + s.bytes], Sum(samples[..k]), Sum(samples[..k]) + samples[k].bytes);
    } else {
      assert samples[..k] == init;
      var p, q := Payload(buffer, init), buffer[s.data..s.data + s.bytes];
      assert (p + q)[|p|..|p| + |q|] == q;
    }
  }

  lemma {:induction false} Front(p: bytes, q: bytes, a: nat, b: nat)
    requires a <= b <= |p|
    ensures (p + q)[a..b] == p[a..b]
  {
  }

  lemma {:induction false} AllPayloadAt(tracks: seq<Track>, i: nat)
    requires AllIn(tracks) && i < |tracks|
    ensures AllIn(tracks[..i]) && Total(tracks[..i]) + Sum(tracks[i].samples) <= Total(tracks)
    ensures AllPayload(tracks)[Total(tracks[..i])..Total(tracks[..i]) + Sum(tracks[i].samples)]
         == Payload(tracks[i].buffer, tracks[i].samples)
    decreases |tracks|
  {
    hide Payload, SamplesIn, Sum;
    var init := tracks[..|tracks| - 1];
    if i < |init| {
      assert AllIn(init);
      AllPayloadAt(init, i);
      assert init[..i] == tracks[..i];
    }
  }

  // Every sample of every track is in the media data, at the offset it was given.
  lemma {:induction false} SampleAtOffset(tracks: seq<Track>, i: nat, k: nat)
    requires AllIn(tracks) && i < |tracks| && k < |tracks[i].samples|
    ensures
      var (t, s) := (tracks[i], tracks[i].samples[k]);
      var at := AllPlaced(tracks)[i].samples[k].offset;
      && at == Total(tracks[..i]) + Sum(t.samples[..k])
      && s.data + s.bytes <= |t.buffer| && at + s.bytes <= Total(tracks)
      && AllPayload(tracks)[at..at + s.bytes] == t.buffer[s.data..s.data + s.bytes]
  {
    hide Payload, AllPayload, SamplesIn, Sum, Total, Placed, AllPlaced;
    var t, s := tracks[i], tracks[i].samples[k];
    AllPlacedAt(tracks, i);
    PlacedAt(t.samples, Total(tracks[..i]), k);
    AllPayloadAt(tracks, i);
    PayloadAt(t.buffer, t.samples, k);
    var whole := AllPayload(tracks);
    var from, a := Total(tracks[..i]), Sum(t.samples[..k]);
    Inside(whole, from, Sum(t.samples), a, s.bytes);
    assert whole[from + a..from + a + s.bytes] == t.buffer[s.data..s.data + s.bytes];
  }

  lemma {:induction false} Inside(whole: bytes, from: nat, n: nat, a: nat, m: nat)
    requires from + n <= |whole| && a + m <= n
    ensures whole[from..from + n][a..a + m] == whole[from + a..from + a + m]
  {
    var x, y := whole[from..from + n][a..a + m], whole[from + a..from + a + m];
    assert forall i :: 0 <= i < m ==> x[i] == y[i];
  }

  // The offsets follow each other without gap or overlap: within a track, and from track to track.
  lemma {:induction false} OffsetsFollow(tracks: seq<Track>, i: nat, k: nat)
    requires i < |tracks| && k < |tracks[i].samples|
    ensures var p := AllPlaced(tracks);
      && (k + 1 < |p[i].samples| ==> p[i].samples[k + 1].offset == p[i].samples[k].offset + p[i].samples[k].bytes)
      && (k + 1 == |p[i].samples| ==> Total(tracks[..i + 1]) == p[i].samples[k].offset + p[i].samples[k].bytes)
      && (k == 0 ==> p[i].samples[0].offset == Total(tracks[..i]))
  {
    hide Placed, AllPlaced;
    var t := tracks[i];
    AllPlacedAt(tracks, i);
    PlacedAt(t.samples, Total(tracks[..i]), k);
    SumSnoc(t.samples[..k], t.samples[k]);
    assert t.samples[..k] + [t.samples[k]] == t.samples[..k + 1];
    if k + 1 < |t.samples| {
      PlacedAt(t.samples, Total(tracks[..i]), k + 1);
    } else {
      assert t.samples[..k + 1] == t.samples;
      assert tracks[..i + 1][..i] == tracks[..i];
    }
    assert k == 0 ==> t.samples[..k] == [];
  }

  lemma {:induction false} EmptiedTotal(tracks: seq<Track>)
    requires forall i :: 0 <= i < |tracks| ==> tracks[i].samples == []
    ensures Total(tracks) == 0
    decreases |tracks|
  {
    if tracks != [] { EmptiedTotal(tracks[..|tracks| - 1]); }
  }

  lemma {:induction false} ClosedSane(t: Track, next: int)
    requires Sane(t)
    ensures var c := Closed(t, next);
      && |c.samples| == |t.samples| && c.buffer == t.buffer && c.silence == t.silence && c.kind == t.kind && c.frame == t.frame
  {
  }

  // A save leaves a balanced writer with nothing held; what it wrote has the length announced.
  lemma {:induction false} SaveBalanced(w: Writer, next: int)
    requires Sound(w) && Balanced(w)
    ensures var r := Save(w, next);
      Sound(r.w) && Balanced(r.w) && Total(r.w.tracks) == 0 && |r.media| == w.mdat && |r.w.tracks| == |w.tracks|
  {
    hide Sum, SamplesIn, Placed, AllPlaced, Payload, AllPayload, Closed;
    if w.mdat >= 1 {
      var c := AllClosed(w.tracks, next);
      var tracks := Save(w, next).w.tracks;
      forall i | 0 <= i < |tracks| ensures Sane(tracks[i]) && tracks[i].samples == [] {
        assert Sane(w.tracks[i]);
        ClosedSane(w.tracks[i], next);
        AllPlacedAt(c, i);
        NoneIn(0);
      }
      EmptiedTotal(tracks);
    }
  }

  lemma {:induction false} NoneIn(used: nat)
    ensures SamplesIn([], used) && Sum([]) == 0
  {
  }

  // ---------------------------------------------------------------------------
  // Runs

  datatype Op = Put(idx: int, data: bytes, pts: int, dts: int) | Close(next: int)

  predicate AllShort(ops: seq<Op>) { forall i :: 0 <= i < |ops| ==> ops[i].Put? ==> |ops[i].data| < POW32 }

  function Step(w: Writer, op: Op): Writer
    requires Sound(w) && Balanced(w)
  {
    match op
    case Put(idx, data, pts, dts) => Write(w, idx, data, pts, dts).w
    case Close(next) => Save(w, next).w
  }

  // From any tracks without samples, every run of writes, repairs and saves stays balanced.
  function Run(w: Writer, ops: seq<Op>): (r: Writer)
    requires Sound(w) && Balanced(w) && AllShort(ops)
    ensures Sound(r) && Balanced(r)
    decreases |ops|
  {
    if ops == [] then w
    else
      StepBalanced(w, ops[0]);
      Run(Step(w, ops[0]), ops[1..])
  }

  lemma {:induction false} StepBalanced(w: Writer, op: Op)
    requires Sound(w) && Balanced(w) && (op.Put? ==> |op.data| < POW32)
    ensures Sound(Step(w, op)) && Balanced(Step(w, op))
  {
    hide Sound, Balanced, Write, Save;
    match op
    case Put(idx, data, pts, dts) => WriteBalanced(w, idx, data, pts, dts);
    case Close(next) => SaveBalanced(w, next);
  }
}
