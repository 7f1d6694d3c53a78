/** Where samples lie in their buffers, and how far audio may drift. */
module Fmp4Buffer {
  import opened Bits
  import opened Bytes
  import opened Fmp4

  // The samples lie back to back from the front of the buffer.
  predicate Packed(samples: seq<Sample>) {
    samples == [] ||
    (Packed(samples[..|samples| - 1]) && samples[|samples| - 1].data == Sum(samples[..|samples| - 1]))
  }

  // Growing finds the samples again by adding up lengths: they stay where they are exactly when they are packed.
  lemma {:induction false} RelocatedIffPacked(samples: seq<Sample>)
    ensures Relocated(samples) == samples <==> Packed(samples)
    decreases |samples|
  {
    if samples != [] {
      var init, s := samples[..|samples| - 1], samples[|samples| - 1];
      RelocatedIffPacked(init);
      assert samples == init + [s];
      assert Relocated(samples)[..|init|] == Relocated(init);
      assert Relocated(samples)[|init|] == s.(data := Sum(init));
    }
  }

  // The bytes of all held samples.
  function Contents(buffer: bytes, samples: seq<Sample>): (c: seq<bytes>)
    requires SamplesIn(samples, |buffer|)
    ensures |c| == |samples|
  {
    if samples == [] then []
    else
      var init, s := samples[..|samples| - 1], samples[|samples| - 1];
      Contents(buffer, init) + [buffer[s.data..s.data + s.bytes]]
  }

  lemma {:induction false} ContentsSnoc(buffer: bytes, samples: seq<Sample>, s: Sample)
    requires SamplesIn(samples, |buffer|) && s.data + s.bytes <= |buffer|
    ensures SamplesIn(samples + [s], |buffer|)
    ensures Contents(buffer, samples + [s]) == Contents(buffer, samples) + [buffer[s.data..s.data + s.bytes]]
  {
    assert (samples + [s])[..|samples|] == samples;
  }

  // Only the part of the buffer in which the samples lie matters.
  lemma {:induction false} ContentsSame(a: bytes, b: bytes, samples: seq<Sample>, used: nat)
    requires SamplesIn(samples, used) && used <= |a| && used <= |b| && a[..used] == b[..used]
    ensures SamplesIn(samples, |a|) && SamplesIn(samples, |b|) && Contents(a, samples) == Contents(b, samples)
    decreases |samples|
  {
    if samples != [] {
      var init, s := samples[..|samples| - 1], samples[|samples| - 1];
      ContentsSame(a, b, init, used);
      assert a[s.data..s.data + s.bytes] == a[..used][s.data..s.data + s.bytes];
      assert b[s.data..s.data + s.bytes] == b[..used][s.data..s.data + s.bytes];
    }
  }

  lemma {:induction false} PutShape(t: Track, mdat: nat, data: bytes, pts: int, dts: int) returns (s: Sample)
    requires data != [] && |data| < POW32 && InBuffer(t) && (Grows(t, |data|) ==> Relocated(t.samples) == t.samples)
    ensures
      var r := Put(t, mdat, data, pts, dts);
      && r.samples == t.samples + [s] && s.data == t.used && s.bytes == |data|
      && t.used + |data| <= |r.buffer|
      && r.buffer[..t.used] == t.buffer[..t.used] && r.buffer[t.used..t.used + |data|] == data
  {
    hide Sum, Relocated, SamplesIn;
    s := Put(t, mdat, data, pts, dts).samples[|t.samples|];
  }

  // A new sample is added behind the others, whose bytes stay as they are, unless the buffer has to grow while they
  // are not packed.
  lemma {:induction false} PutAppends(t: Track, mdat: nat, data: bytes, pts: int, dts: int)
    requires data != [] && |data| < POW32 && InBuffer(t) && (Grows(t, |data|) ==> Packed(t.samples))
    ensures
      var r := Put(t, mdat, data, pts, dts);
      && SamplesIn(t.samples, |t.buffer|) && SamplesIn(r.samples, |r.buffer|)
      && Contents(r.buffer, r.samples) == Contents(t.buffer, t.samples) + [data]
      && t.samples <= r.samples
  {
    hide Sum, Relocated, Packed, SamplesIn, Contents, Put;
    RelocatedIffPacked(t.samples);
    var r := Put(t, mdat, data, pts, dts);
    var s := PutShape(t, mdat, data, pts, dts);
    ContentsSame(t.buffer, r.buffer, t.samples, t.used);
    ContentsSnoc(r.buffer, t.samples, s);
  }

  // Nothing but held samples in the taken part of the buffer.
  predicate Whole(t: Track) { InBuffer(t) && Packed(t.samples) && t.used == Sum(t.samples) }

  lemma {:induction false} PackedSnoc(samples: seq<Sample>, s: Sample)
    ensures Packed(samples + [s]) == (Packed(samples) && s.data == Sum(samples))
  {
    assert (samples + [s])[..|samples|] == samples;
  }

  // New samples keep a whole buffer whole.
  lemma {:induction false} PutWhole(t: Track, mdat: nat, data: bytes, pts: int, dts: int)
    requires data != [] && |data| < POW32 && Whole(t)
    ensures Whole(Put(t, mdat, data, pts, dts))
  {
    PutIn(t, mdat, data, pts, dts);
    PutSum(t, mdat, data, pts, dts);
    RelocatedIffPacked(t.samples);
    hide Sum, Relocated, Packed, SamplesIn;
    var r := Put(t, mdat, data, pts, dts);
    var s := r.samples[|t.samples|];
    assert r.samples == t.samples + [s] && s.data == t.used;
    PackedSnoc(t.samples, s);
  }

  // Dropped samples stay in the taken part of the buffer: after a new sample all are packed exactly when nothing was
  // dropped before it and the others were packed or have just been found again; only then does growing leave them alone.
  lemma {:induction false} PutAfterDrop(t: Track, mdat: nat, data: bytes, pts: int, dts: int)
    requires data != [] && InBuffer(t)
    ensures var r := Put(t, mdat, data, pts, dts);
      && (Packed(r.samples) <==> Sum(t.samples) == t.used && (Grows(t, |data|) || Packed(t.samples)))
      && (forall n :: Grows(r, n) ==> (Grown(r, n).samples == r.samples <==> Packed(r.samples)))
  {
    var g := if Grows(t, |data|) then Grown(t, |data|) else t;
    var r := Put(t, mdat, data, pts, dts);
    var s := r.samples[|t.samples|];
    RelocatedPacked(t.samples);
    RelocatedSum(t.samples);
    RelocatedIffPacked(r.samples);
    hide Sum, Relocated, Packed, SamplesIn;
    assert r.samples == g.samples + [s] && s.data == t.used;
    PackedSnoc(g.samples, s);
  }

  lemma {:induction false} RelocatedPacked(samples: seq<Sample>)
    ensures Packed(Relocated(samples))
    decreases |samples|
  {
    if samples != [] {
      var init, s := samples[..|samples| - 1], samples[|samples| - 1];
      RelocatedPacked(init);
      RelocatedSum(init);
      PackedSnoc(Relocated(init), s.(data := Sum(init)));
    }
  }

  // A drop leaves the first samples and the buffer.
  lemma {:induction false} DropPrefix(t: Track, mdat: int, count: int)
    ensures var d := Drop(t, mdat, count).0;
      && d.used == t.used && d.buffer == t.buffer
      && |d.samples| == (if count <= 0 then |t.samples| else if count <= |t.samples| then |t.samples| - count else 0)
      && d.samples == t.samples[..|d.samples|]
    decreases |t.samples|
  {
    if count > 0 && t.samples != [] {
      var n := |t.samples| - 1;
      DropPrefix(t.(samples := t.samples[..n], total := t.total - t.samples[n].duration), mdat - t.samples[n].bytes, count - 1);
    }
  }

  // ---------------------------------------------------------------------------
  // Drift

  lemma {:induction false} PutTimed(t: Track, mdat: nat, data: bytes, dts: int)
    requires data != []
    ensures Put(t, mdat, data, dts, dts).samples != []
    ensures var u := Timed(Put(t, mdat, data, dts, dts));
      && u.total == t.total + t.frame && u.frame == t.frame && |u.samples| == |t.samples| + 1
      && u.started && (t.started ==> u.start == t.start)
  {
    hide Relocated;
  }

  lemma {:induction false} InsertTotal(t: Track, mdat: nat, silence: bytes, count: nat, dts: int)
    requires silence != [] && (t.started || t.samples != [])
    ensures var r := Insert(t, mdat, silence, count, dts);
      r.result == 0 && r.track.total == t.total + count * t.frame && |r.track.samples| == |t.samples| + count
      && (t.started ==> r.track.start == t.start)
    decreases count
  {
    hide Put, Timed;
    if count > 0 {
      PutTimed(t, mdat, silence, dts);
      InsertTotal(Timed(Put(t, mdat, silence, dts, dts)), mdat + |silence|, silence, count - 1, dts + t.frame);
      assert count * t.frame == t.frame + (count - 1) * t.frame;
    }
  }

  lemma {:induction false} Gap(lost: int, frame: nat)
    requires frame > 0 && lost >= 0
    ensures 0 <= lost - Trunc(lost, frame) * frame < frame
  {
  }

  // A gap of two frames or more is filled up to less than one frame; one of 4096 frames or more is refused.
  lemma {:induction false} GapFilled(t: Track, mdat: nat)
    requires t.samples != [] && Sane(t) && t.kind.Audio? && Sum(t.samples) <= mdat && t.aac && t.started
    requires t.samples[|t.samples| - 1].bytes > 0
    requires 2 * t.frame <= Lost(t) < 0x8000_0000
    ensures
      var r := Repaired(t, mdat);
      var count := Trunc(Lost(t), t.frame);
      if count >= MAX_REPAIR then r == Outcome(Timed(t), mdat, -E2BIG)
      else
        && r.result == 0 && |r.track.samples| == |t.samples| + count && r.track.start == t.start
        && 0 <= Lost(t) - (r.track.total - t.total - t.frame) < t.frame
  {
    hide Sum, SamplesIn, Insert;
    var lost, u := Lost(t), Timed(t);
    Gap(lost, t.frame);
    CountBound(lost, t.frame);
    var count := Trunc(lost, t.frame);
    LastIn(t);
    var silence := if t.silence != [] then t.silence else Data(t, t.samples[|t.samples| - 1]);
    if count < MAX_REPAIR { InsertTotal(u, mdat, silence, count, t.start + t.total); }
  }

  lemma {:induction false} Int32Small(v: int)
    requires 0 <= v < 0x8000_0000
    ensures Int32(v) == v
  {
  }

  lemma {:induction false} QuotientBound(q: int, frame: nat, lost: nat)
    requires frame > 0 && q * frame <= lost < q * frame + frame
    ensures 0 <= q <= lost
  {
    Scaled(q, frame);
    if q >= 0 { Scaled(frame, q); }
  }

  lemma {:induction false} CountBound(lost: int, frame: nat)
    requires frame > 0 && 0 <= lost < 0x8000_0000
    ensures 0 <= Trunc(lost, frame) <= lost && Int32(Trunc(lost, frame)) == Trunc(lost, frame)
  {
    QuotientBound(lost / frame, frame, lost);
    hide Int32;
    Int32Small(lost / frame);
  }
}
