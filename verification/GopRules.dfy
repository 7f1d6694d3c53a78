/** Which frames the cache takes, and where it cuts its groups. */
module GopRules {
  import opened Frames
  import opened FrameQueue
  import opened GopCache
  import opened GopHistory
  import H = GopHistory
  import opened Options

  predicate Enables(m: Frame, f: Frame)
    requires m.Meta? && f.IsMedia()
  {
    match f
    case Audio(_, _, _) => m.audioOn
    case Video(_, _, _, _) => m.videoOn
  }

  // A media frame is accepted exactly when the metadata that the cache points to enables its type and, for an inter
  // frame, the media of the current group start with a keyframe.
  lemma {:induction false} AcceptedIff(c: Cache, f: Frame)
    requires GoodCache(c)
    ensures c.latestMeta.Some? ==> c.latestMeta.value.Meta?
    ensures Accepts(c, f) <==>
      (f.Meta? || (c.latestMeta.Some? && Enables(c.latestMeta.value, f) && (f.IsInter() ==> CurrentKey(c).Some?)))
  {
    FewWithoutMedia(c.current);
  }

  // ---------------------------------------------------------------------------
  // Where groups begin

  function MediaCount(s: seq<Frame>): nat { |MediaFrames(s)| }

  lemma {:induction false} NoMediaCount(s: seq<Frame>)
    ensures FirstMedia(s).None? <==> MediaCount(s) == 0
  {
    if s != [] {
      var init, f := s[..|s| - 1], s[|s| - 1];
      NoMediaCount(init);
      FirstMediaConcat(init, [f]);
      assert s == init + [f];
    }
  }

  lemma {:induction false} CountConcat(a: seq<Frame>, b: seq<Frame>)
    ensures MediaCount(a + b) == MediaCount(a) + MediaCount(b)
  {
    if b == [] {
      assert a + b == a;
    } else {
      CountConcat(a, b[..|b| - 1]);
      assert (a + b)[..|a + b| - 1] == a + b[..|b| - 1];
    }
  }

  lemma {:induction false} CountOne(f: Frame)
    ensures MediaCount([f]) == if f.IsMedia() then 1 else 0
  {
    assert [f][..0] == [] && MediaFrames([]) == [];
  }

  lemma {:induction false} CountPushedBack(q: Queue, f: Frame)
    ensures MediaCount(PushedBack(q, f).frames) == MediaCount(q.frames) + if f.IsMedia() then 1 else 0
  {
    var n := |q.frames|;
    if f.Meta? && EndsWithMeta(q.frames) {
      CountConcat(q.frames[..n - 1], [q.frames[n - 1]]);
      CountOne(q.frames[n - 1]);
      assert q.frames == q.frames[..n - 1] + [q.frames[n - 1]];
      CountConcat(q.frames[..n - 1], [f]);
    } else {
      CountConcat(q.frames, [f]);
    }
    CountOne(f);
  }

  lemma {:induction false} CountLed(q: Queue, m: Frame)
    requires m.Meta?
    ensures MediaCount(Led(q, m).frames) == MediaCount(q.frames)
  {
    if !StartsWithMeta(q.frames) {
      CountConcat([m], q.frames);
      CountOne(m);
    }
  }

  // The metadata that a queue or the cache points to enables audio and video as given.
  predicate Of(m: Option<Frame>, audio: bool, video: bool) {
    m.Some? ==> m.value.Meta? && m.value.audioOn == audio && m.value.videoOn == video
  }

  predicate QueueOf(q: Queue, audio: bool, video: bool) { Of(q.firstMeta, audio, video) && Of(q.latestMeta, audio, video) }

  predicate CacheOf(c: Cache, audio: bool, video: bool) {
    && Of(c.latestMeta, audio, video) && QueueOf(c.current, audio, video)
    && forall i :: 0 <= i < |c.gops| ==> QueueOf(c.gops[i], audio, video)
  }

  // All metadata of a run enables audio and video as given.
  predicate RunOf(es: seq<Event>, audio: bool, video: bool) {
    forall i :: 0 <= i < |es| && es[i].Add? && es[i].f.Meta? ==> es[i].f.audioOn == audio && es[i].f.videoOn == video
  }

  lemma {:induction false} PushedOf(c: Cache, f: Frame, audio: bool, video: bool)
    requires CacheOf(c, audio, video) && (f.Meta? ==> f.audioOn == audio && f.videoOn == video)
    ensures CacheOf(Pushed(c, f), audio, video)
  {
  }

  lemma {:induction false} PoppedOf(c: Cache, audio: bool, video: bool)
    requires CacheOf(c, audio, video) && c.gops != [] && c.gops[0].latestMeta.Some?
    ensures CacheOf(PopGop(c), audio, video) && |PopGop(c).gops| == |c.gops| - 1
  {
  }

  // Under audio only: one media frame in every closed group, at most one in the current one.
  predicate Singles(c: Cache) {
    && MediaCount(c.current.frames) <= 1
    && forall i :: 0 <= i < |c.gops| ==> MediaCount(c.gops[i].frames) == 1
  }

  // With video: every group but the oldest starts its media with a keyframe.
  predicate KeyedGroups(c: Cache) {
    && (forall i :: 0 < i < |c.gops| ==> c.gops[i].firstMedia.Some? && c.gops[i].firstMedia.value.IsKeyframe())
    && (c.gops != [] ==> CurrentKey(c).Some?)
  }

  predicate Closes(c: Cache, f: Frame) { !OnlyMetadata(c.current) && OpensGop(c, f) && c.current.firstMedia.Some? }

  lemma {:induction false} PushedParts(c: Cache, f: Frame)
    ensures var d := Pushed(c, f);
      if Closes(c, f) then d.gops == c.gops + [c.current] && d.current == PushedBack(EMPTY, f)
      else d.gops == c.gops && d.current == PushedBack(c.current, f)
  {
    hide PushedBack, OpensGop;
  }

  // A queue that gets an audio frame without being closed first holds no media.
  lemma {:induction false} AloneCloses(c: Cache, f: Frame)
    requires GoodCache(c) && Accepts(c, f) && CacheOf(c, true, false)
    ensures f.IsMedia() && !Closes(c, f) ==> c.current.firstMedia.None?
    ensures c.current.firstMedia == FirstMedia(c.current.frames)
  {
    AcceptedIff(c, f);
    FewWithoutMedia(c.current);
  }

  lemma {:induction false} PushedSingles(c: Cache, f: Frame)
    requires GoodCache(c) && Accepts(c, f) && CacheOf(c, true, false) && Singles(c)
    ensures Singles(Pushed(c, f))
  {
    hide MediaCount, PushedBack, Pushed, Closes, OpensGop, Accepts, GoodCache, CacheOf, FirstMedia;
    AloneCloses(c, f);
    ClosesMedia(c, f);
    PushedParts(c, f);
    NoMediaCount(c.current.frames);
    CountPushedBack(c.current, f);
    CountPushedBack(EMPTY, f);
    NoMediaCount([]);
    NoneFound();
  }

  lemma {:induction false} ClosesMedia(c: Cache, f: Frame)
    ensures Closes(c, f) ==> c.current.firstMedia.Some?
  {
  }

  lemma {:induction false} NoneFound()
    ensures FirstMedia([]).None?
  {
  }

  lemma {:induction false} PoppedSingles(c: Cache)
    requires GoodCache(c) && Singles(c) && c.gops != []
    ensures c.gops[0].latestMeta.Some? && Singles(PopGop(c))
  {
    PopGopGood(c);
    var m := c.gops[0].latestMeta.value;
    CountLed(SecondGop(c), m);
    hide MediaCount, GoodCache, Led;
  }

  lemma {:induction false} PushedKeyed(c: Cache, f: Frame, audio: bool)
    requires GoodCache(c) && Accepts(c, f) && CacheOf(c, audio, true) && KeyedGroups(c)
    ensures KeyedGroups(Pushed(c, f))
  {
    FewWithoutMedia(c.current);
  }

  lemma {:induction false} PoppedGroups(c: Cache)
    requires GoodCache(c) && KeyedGroups(c) && c.gops != []
    ensures c.gops[0].latestMeta.Some? && KeyedGroups(PopGop(c))
  {
    PopGopGood(c);
    PoppedKeeps(c);
    PopGopLinked(c);
    PushedFrontGood(SecondGop(c), c.gops[0].latestMeta.value);
    hide GoodCache;
  }

  lemma {:induction false} UpdatedGroups(c: Cache, audio: bool, video: bool)
    requires GoodCache(c) && CacheOf(c, audio, video)
    ensures CacheOf(UpdateGop(c), audio, video)
    ensures Singles(c) ==> Singles(UpdateGop(c))
    ensures KeyedGroups(c) ==> KeyedGroups(UpdateGop(c))
    decreases |c.gops|
  {
    hide GoodCache, CacheOf, Singles, KeyedGroups, PopGop;
    if SecondGop(c).frames != [] && MayPop(c) {
      PopGopGood(c);
      PoppedOf(c, audio, video);
      if Singles(c) { PoppedSingles(c); }
      if KeyedGroups(c) { PoppedGroups(c); }
      UpdatedGroups(PopGop(c), audio, video);
    }
  }

  predicate Grouped(c: Cache, audio: bool, video: bool) {
    && CacheOf(c, audio, video)
    && (audio && !video ==> Singles(c))
    && (video ==> KeyedGroups(c))
  }

  lemma {:induction false} AddedGroups(c: Cache, f: Frame, audio: bool, video: bool)
    requires GoodCache(c) && Grouped(c, audio, video) && (f.Meta? ==> f.audioOn == audio && f.videoOn == video)
    ensures Grouped(AddFrame(c, f).0, audio, video)
  {
    hide GoodCache, CacheOf, Singles, KeyedGroups, Pushed, Accepts, UpdateGop;
    if Accepts(c, f) {
      PushedGood(c, f);
      PushedOf(c, f, audio, video);
      if audio && !video { PushedSingles(c, f); }
      if video { PushedKeyed(c, f, audio); }
      UpdatedGroups(Pushed(c, f), audio, video);
    }
  }

  lemma {:induction false} NothingGrouped(ms: int, audio: bool, video: bool)
    ensures Grouped(EMPTY_CACHE.(minMs := ms), audio, video)
  {
  }

  // As long as all metadata of a stream enables audio alone, every audio frame is in a group of its own; as long as all
  // of it enables video, every group but the oldest starts its media with a keyframe.
  lemma {:induction false} RunGrouped(es: seq<Event>, audio: bool, video: bool)
    requires RunOf(es, audio, video)
    ensures Grouped(H.Run(es).cache, audio, video)
    decreases |es|
  {
    hide GoodCache, Grouped, AddFrame;
    NothingGrouped(-1, audio, video);
    if es != [] {
      var init, e := es[..|es| - 1], es[|es| - 1];
      RunGrouped(init, audio, video);
      var c := H.Run(init).cache;
      match e
      case Add(f) => AddedGroups(c, f, audio, video);
      case SetMin(ms) => SameGroups(c, ms, audio, video);
      case Clear => NothingGrouped(c.minMs, audio, video);
    }
  }

  lemma {:induction false} SameGroups(c: Cache, ms: int, audio: bool, video: bool)
    requires Grouped(c, audio, video)
    ensures Grouped(c.(minMs := ms), audio, video)
  {
    hide MediaCount;
  }

  // ---------------------------------------------------------------------------
  // What is taken in and what is left alone

  // Without a positive minimum duration, and for metadata, nothing is evicted: the frame goes behind all others, and
  // metadata takes the place of metadata at the end.
  lemma {:induction false} AddedKeeps(c: Cache, f: Frame)
    requires GoodCache(c) && Accepts(c, f) && (c.minMs <= 0 || f.Meta?)
    ensures var a, d := AllFrames(c), AddFrame(c, f).0;
      AllFrames(d) == (if f.Meta? && EndsWithMeta(a) then a[..|a| - 1] + [f] else a + [f]) && d.minMs == c.minMs
  {
    AllFramesPushed(c, f);
    hide GoodCache, AllFrames, Accepts;
  }

  // ---------------------------------------------------------------------------
  // Size and duration

  // From the first media frame to the last.
  function Span(s: seq<Frame>): int {
    if FirstMedia(s).Some? then LastDts(s) - FirstDts(s) else 0
  }

  // What a good queue knows about its media.
  lemma {:induction false} QueueMedia(q: Queue)
    requires GoodQueue(q)
    ensures q.firstMedia == FirstMedia(q.frames) && q.latestMedia == LastMedia(q.frames)
    ensures q.firstMedia.Some? <==> q.latestMedia.Some?
    ensures NonNegativeDts(q.frames) ==> q.startDts == FirstDts(q.frames) && q.endDts == LastDts(q.frames)
    ensures NonNegativeDts(q.frames) && q.firstMedia.Some? ==> q.startDts >= 0 && q.endDts >= 0
  {
    if NonNegativeDts(q.frames) { FoundDtsNonNegative(q.frames); }
    SameFound(q.frames);
  }

  lemma {:induction false} SameFound(s: seq<Frame>)
    ensures FirstMedia(s).Some? <==> LastMedia(s).Some?
  {
    if s != [] {
      var init, f := s[..|s| - 1], s[|s| - 1];
      SameFound(init);
      FirstMediaConcat(init, [f]);
      assert s == init + [f];
    }
  }

  // The groups laid out: the first media frame is that of the oldest one, the last that of the current one.
  lemma {:induction false} FlatMedia(gops: seq<Queue>, current: Queue)
    requires GoodQueue(current)
    requires forall i :: 0 <= i < |gops| ==> GoodQueue(gops[i]) && gops[i].firstMedia.Some?
    ensures FirstMedia(Flat(gops) + current.frames) == (if gops == [] then current.firstMedia else gops[0].firstMedia)
    ensures current.firstMedia.Some? ==> LastMedia(Flat(gops) + current.frames) == current.latestMedia
    ensures NonNegativeDts(Flat(gops) + current.frames) ==>
      NonNegativeDts(current.frames) && (gops != [] ==> NonNegativeDts(gops[0].frames))
    decreases |gops|
  {
    hide NonNegativeDts, FirstMedia, LastMedia, GoodQueue;
    QueueMedia(current);
    if gops == [] {
      assert Flat(gops) + current.frames == current.frames;
    } else {
      var init, last := gops[..|gops| - 1], gops[|gops| - 1];
      FlatMedia(init, last);
      FirstMediaConcat(Flat(gops), current.frames);
      LastMediaConcat(Flat(gops), current.frames);
      NonNegativeConcat(Flat(gops), current.frames);
    }
  }

  lemma {:induction false} EndGops(c: Cache)
    requires GoodCache(c)
    ensures FirstMediaGop(c.gops, c.current) == FirstGop(c)
    ensures c.gops != [] ==> c.current.firstMedia.Some? && c.gops[0].firstMedia.Some?
    ensures LastMediaGop(c.gops, c.current) == if c.current.firstMedia.Some? then c.current else EMPTY
  {
  }

  // The cached duration is the time from the first cached media frame to the last.
  lemma {:induction false} DurationExact(c: Cache)
    requires GoodCache(c) && NonNegativeDts(AllFrames(c))
    ensures Duration(c) == Span(AllFrames(c))
  {
    EndGops(c);
    FlatMedia(c.gops, c.current);
    QueueMedia(c.current);
    if c.gops != [] { QueueMedia(c.gops[0]); }
    SameFound(AllFrames(c));
    hide FirstMedia, LastMedia, NonNegativeDts, GoodQueue, Linked, FirstMediaGop, LastMediaGop;
  }
}
