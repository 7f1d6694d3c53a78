/** The cache of groups of pictures as the object that a session holds: queues are owned, moved and dropped in place. */
module GopQueue {
  import opened Frames
  import opened FrameQueue
  import opened Options
  import C = GopCache

  ghost function Values(gops: seq<FrameQueue>): (vs: seq<Queue>)
    reads gops
    ensures |vs| == |gops| && forall i :: 0 <= i < |gops| ==> vs[i] == gops[i].Value()
  {
    if gops == [] then [] else Values(gops[..|gops| - 1]) + [gops[|gops| - 1].Value()]
  }

  predicate Distinct(gops: seq<FrameQueue>) {
    forall i, j :: 0 <= i < j < |gops| ==> gops[i] != gops[j]
  }

  class GopQueue {
    var minMs: int
    var firstMeta: Option<Frame>
    var latestMeta: Option<Frame>
    var firstMedia: Option<Frame>
    var latestMedia: Option<Frame>
    const current: FrameQueue
    var gops: seq<FrameQueue>

    ghost function Value(): C.Cache
      reads this, current, gops
    {
      C.Cache(minMs, firstMeta, latestMeta, firstMedia, latestMedia, current.Value(), Values(gops))
    }

    ghost predicate Owned()
      reads this
    {
      Distinct(gops) && current !in gops
    }

    ghost predicate Valid()
      reads this, current, gops
    {
      Owned() && C.GoodCache(Value())
    }

    constructor ()
      ensures Valid() && fresh(current) && fresh(gops) && Value() == C.EMPTY_CACHE
    {
      minMs := -1;
      firstMeta, latestMeta, firstMedia, latestMedia := None, None, None, None;
      current := new FrameQueue();
      gops := [];
      new;
      C.EmptyGood();
    }

    method SetMinCacheDuration(ms: int)
      requires Valid()
      requires minMs == -1 || ms > 0
      modifies this
      ensures Valid() && gops == old(gops) && Value() == old(Value()).(minMs := ms)
    {
      minMs := ms;
    }

    method Clear()
      requires Valid()
      modifies this, current
      ensures Valid() && gops == [] && Value() == C.EMPTY_CACHE.(minMs := old(minMs))
    {
      current.Clear();
      gops := [];
      firstMeta, latestMeta, firstMedia, latestMedia := None, None, None, None;
      C.EmptyGood();
    }

    method AllowMediaType(video: bool) returns (allowed: bool)
      ensures allowed == C.Allows(Value(), video)
    {
      if latestMeta.None? || !latestMeta.value.Meta? { return false; }
      allowed := if video then latestMeta.value.videoOn else latestMeta.value.audioOn;
    }

    method ValidateFrame(f: Frame) returns (valid: bool)
      ensures valid == C.Accepts(Value(), f)
    {
      if f.Meta? { return true; }
      var allowed := AllowMediaType(f.Video?);
      if !allowed { return false; }
      if !f.Video? || f.key { return true; }
      if current.queue == [] { return true; }
      valid := current.firstMedia.Some? && current.firstMedia.value.IsKeyframe();
    }

    method PushFrame(f: Frame)
      requires Owned()
      modifies this, current
      ensures gops == old(gops) && Value() == C.PushFrame(old(Value()), f)
    {
      hide Values;
      current.PushBack(f);
      if gops == [] {
        firstMeta, latestMeta := current.firstMeta, current.firstMeta;
        firstMedia, latestMedia := current.firstMedia, current.latestMedia;
      } else if f.Meta? {
        if firstMeta.None? { firstMeta := Some(f); }
        latestMeta := Some(f);
      } else {
        if firstMedia.None? { firstMedia := Some(f); }
        latestMedia := Some(f);
      }
      assert Values(gops) == old(Values(gops));
    }

    method OnPopGop()
      modifies this
      ensures gops == old(gops)
      ensures Value() == old(Value()).(firstMedia := C.FirstMediaOf(Values(gops), current.Value()),
                                       firstMeta := C.FirstMetaOf(Values(gops), current.Value()))
    {
      hide Values;
      var media: Option<Frame>, meta: Option<Frame> := None, None;
      var i := 0;
      ghost var vs, cur := Values(gops), current.Value();
      while i < |gops|
        invariant 0 <= i <= |gops|
        invariant media.Some? ==> media == C.FirstMediaOf(vs, cur)
        invariant media.None? ==> C.FirstMediaOf(vs, cur) == C.FirstMediaOf(vs[i..], cur)
        invariant meta.Some? ==> meta == C.FirstMetaOf(vs, cur)
        invariant meta.None? ==> C.FirstMetaOf(vs, cur) == C.FirstMetaOf(vs[i..], cur)
      {
        assert vs[i..][0] == vs[i] && vs[i..][1..] == vs[i + 1..];
        if media.None? && gops[i].firstMedia.Some? { media := gops[i].firstMedia; }
        if meta.None? && gops[i].firstMeta.Some? { meta := gops[i].firstMeta; }
        if media.Some? && meta.Some? { break; }
        i := i + 1;
      }
      assert vs[|vs|..] == [];
      if media.None? { media := current.firstMedia; }
      if meta.None? { meta := current.firstMeta; }
      firstMedia, firstMeta := media, meta;
    }

    // Drop the oldest group and carry its last metadata over.
    method PopFront()
      requires Owned() && gops != [] && gops[0].latestMeta.Some?
      modifies this, current, gops
      ensures Owned() && gops == old(gops)[1..]
      ensures Value() == C.PopGop(old(Value()))
    {
      hide Values;
      ghost var rest := Values(gops)[1..];
      var carried := gops[0].latestMeta.value;
      gops := gops[1..];
      assert Values(gops) == rest;
      if gops == [] {
        LeadWith(current, carried);
      } else {
        LeadWith(gops[0], carried);
        assert Values(gops) == [C.Led(rest[0], carried)] + rest[1..];
      }
      OnPopGop();
    }

    method LeadWith(q: FrameQueue, m: Frame)
      modifies q
      ensures q.Value() == C.Led(old(q.Value()), m)
    {
      if q.queue == [] || !q.queue[0].Meta? { q.PushFront(m); }
    }

    method UpdateGop()
      requires Valid()
      modifies this, current, gops
      ensures Valid() && (forall q :: q in gops ==> q in old(gops))
      ensures Value() == C.UpdateGop(old(Value()))
      decreases |gops|
    {
      hide C.GoodCache;
      hide Values;
      if |gops| < 1 { return; }
      var second := if |gops| > 1 then gops[1] else current;
      if second.queue == [] { return; }
      if second.firstMedia.None? || latestMedia.None? { return; }
      if !second.firstMedia.value.IsMedia() || !latestMedia.value.IsMedia() { return; }
      if latestMedia.value.dts - second.firstMedia.value.dts < minMs { return; }
      C.PopGopGood(Value());
      PopFront();
      UpdateGop();
    }

    method CloseCurrent()
      requires Owned()
      modifies this, current
      ensures Owned() && |gops| == |old(gops)| + 1
      ensures gops[..|gops| - 1] == old(gops) && fresh(gops[|gops| - 1])
      ensures Value() == C.CloseGop(old(Value()))
    {
      hide Values;
      var closed := new FrameQueue.Move(current);
      gops := gops + [closed];
      assert gops[..|gops| - 1] == old(gops);
    }

    method AddFrame(f: Frame) returns (added: bool)
      requires Valid()
      modifies this, current, gops
      ensures Valid() && (forall q :: q in gops ==> q in old(gops) || fresh(q))
      ensures (Value(), added) == C.AddFrame(old(Value()), f)
      ensures !added ==> Value() == old(Value())
    {
      hide C.GoodCache;
      hide Values;
      var valid := ValidateFrame(f);
      if !valid { return false; }
      C.PushedGood(Value(), f);
      var onlyMetadata := |current.queue| == 1 && current.queue[0].Meta?;
      PushOrOpen(f, onlyMetadata);
      assert forall i :: 0 <= i < |gops| ==> gops[i] in old(gops) || fresh(gops[i]);
      if !onlyMetadata && f.IsMedia() && minMs > 0 { UpdateGop(); }
      added := true;
    }

    // Push `f`, after closing the current group when `f` opens a new one.
    method PushOrOpen(f: Frame, onlyMetadata: bool)
      requires Owned() && onlyMetadata == C.OnlyMetadata(current.Value())
      modifies this, current
      ensures Owned() && (forall q :: q in gops ==> q in old(gops) || fresh(q))
      ensures Value() == C.Pushed(old(Value()), f) && minMs == old(minMs)
    {
      hide Values;
      if !onlyMetadata {
        var audio := AllowMediaType(false);
        var video := AllowMediaType(true);
        if (f.IsKeyframe() || (f.Audio? && audio && !video)) && current.firstMedia.Some? { CloseCurrent(); }
      }
      PushFrame(f);
    }

    method AllFrames() returns (frames: seq<Frame>)
      ensures frames == C.AllFrames(Value())
    {
      hide Values;
      frames := [];
      for i := 0 to |gops|
        invariant frames == C.Flat(Values(gops)[..i])
      {
        frames := frames + gops[i].queue;
        assert Values(gops)[..i + 1][..i] == Values(gops)[..i];
      }
      assert Values(gops)[..|gops|] == Values(gops);
      frames := frames + current.queue;
    }

    // The byte count kept group by group equals the total over all cached media frames.
    method Bytes() returns (bytes: nat)
      requires Valid()
      ensures bytes == C.Bytes(Value()) == MediaBytes(C.AllFrames(Value()))
    {
      hide C.GoodCache;
      hide Values;
      C.BytesExact(Value());
      bytes := 0;
      ghost var vs := Values(gops);
      for i := 0 to |gops|
        invariant bytes == C.TotalBytes(vs[..i])
      {
        bytes := bytes + gops[i].bytes;
        assert vs[..i + 1][..i] == vs[..i];
      }
      assert vs[..|gops|] == vs;
      bytes := bytes + current.bytes;
    }

    method FirstMediaStart() returns (start: int)
      ensures start == C.FirstMediaGop(Value().gops, current.Value()).startDts
    {
      hide Values;
      ghost var vs, cur := Values(gops), current.Value();
      assert vs[|vs|..] == [] && vs[0..] == vs;
      start := current.startDts;
      for i := 0 to |gops|
        invariant start == current.startDts
        invariant C.FirstMediaGop(vs, cur) == C.FirstMediaGop(vs[i..], cur)
      {
        assert vs[i..][0] == vs[i] && vs[i..][1..] == vs[i + 1..];
        if gops[i].firstMedia.Some? { return gops[i].startDts; }
      }
    }

    method LastMediaEnd() returns (end: int)
      ensures end == C.LastMediaGop(Value().gops, current.Value()).endDts
    {
      hide Values;
      if current.firstMedia.Some? { return current.endDts; }
      ghost var vs, cur := Values(gops), current.Value();
      assert vs[..|vs|] == vs;
      end := -1;
      for i := |gops| downto 0
        invariant end == -1
        invariant C.LastMediaGop(vs, cur) == C.LastMediaGop(vs[..i], cur)
      {
        assert vs[..i + 1][i] == vs[i] && vs[..i + 1][..i] == vs[..i];
        if gops[i].firstMedia.Some? { return gops[i].endDts; }
      }
    }

    method Duration() returns (ms: int)
      ensures ms == C.Duration(Value())
    {
      var start := FirstMediaStart();
      var end := LastMediaEnd();
      ms := if start == -1 || end == -1 then 0 else end - start;
    }
  }
}
