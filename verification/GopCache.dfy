/** The cache of groups of pictures as a value. */
module GopCache {
  import opened Frames
  import opened FrameQueue
  import opened Options

  // `gops` are the closed groups, oldest first, and `current` is the one being filled. `minMs` is the least cached
  // duration in milliseconds, and -1 when none is set.
  datatype Cache = Cache(
    minMs: int,
    firstMeta: Option<Frame>, latestMeta: Option<Frame>,
    firstMedia: Option<Frame>, latestMedia: Option<Frame>,
    current: Queue, gops: seq<Queue>)

  const EMPTY_CACHE := Cache(-1, None, None, None, None, EMPTY, [])

  function Flat(gops: seq<Queue>): seq<Frame> {
    if gops == [] then [] else Flat(gops[..|gops| - 1]) + gops[|gops| - 1].frames
  }

  function AllFrames(c: Cache): seq<Frame> { Flat(c.gops) + c.current.frames }

  function FirstGop(c: Cache): Queue { if c.gops == [] then c.current else c.gops[0] }

  function SecondGop(c: Cache): Queue {
    if |c.gops| > 1 then c.gops[1] else if |c.gops| == 1 then c.current else EMPTY
  }

  predicate Allows(c: Cache, video: bool) {
    c.latestMeta.Some? && c.latestMeta.value.Meta? &&
    if video then c.latestMeta.value.videoOn else c.latestMeta.value.audioOn
  }

  predicate Accepts(c: Cache, f: Frame) {
    f.Meta? ||
    (Allows(c, f.Video?) &&
     (!f.IsInter() || c.current.frames == [] ||
      (c.current.firstMedia.Some? && c.current.firstMedia.value.IsKeyframe())))
  }

  predicate OnlyMetadata(q: Queue) { |q.frames| == 1 && q.frames[0].Meta? }

  predicate OpensGop(c: Cache, f: Frame) {
    f.IsKeyframe() || (f.Audio? && Allows(c, false) && !Allows(c, true))
  }

  // With no closed group the cache-wide pointers are taken over from the current queue; in particular the pointer to
  // the latest metadata is set from the *first* metadata of the current queue.
  function OnFrame(c: Cache, f: Frame): Cache {
    if c.gops == [] then
      c.(firstMeta := c.current.firstMeta, latestMeta := c.current.firstMeta,
         firstMedia := c.current.firstMedia, latestMedia := c.current.latestMedia)
    else if f.Meta? then
      c.(firstMeta := if c.firstMeta.None? then Some(f) else c.firstMeta, latestMeta := Some(f))
    else
      c.(firstMedia := if c.firstMedia.None? then Some(f) else c.firstMedia, latestMedia := Some(f))
  }

  function PushFrame(c: Cache, f: Frame): Cache { OnFrame(c.(current := PushedBack(c.current, f)), f) }

  function CloseGop(c: Cache): Cache { c.(gops := c.gops + [c.current], current := EMPTY) }

  function FirstMediaOf(gops: seq<Queue>, current: Queue): Option<Frame> {
    if gops == [] then current.firstMedia
    else if gops[0].firstMedia.Some? then gops[0].firstMedia
    else FirstMediaOf(gops[1..], current)
  }

  function FirstMetaOf(gops: seq<Queue>, current: Queue): Option<Frame> {
    if gops == [] then current.firstMeta
    else if gops[0].firstMeta.Some? then gops[0].firstMeta
    else FirstMetaOf(gops[1..], current)
  }

  function Led(q: Queue, m: Frame): Queue { if StartsWithMeta(q.frames) then q else PushedFront(q, m) }

  // Drop the oldest group; its last metadata moves to the front of the next one.
  function PopGop(c: Cache): Cache
    requires c.gops != [] && c.gops[0].latestMeta.Some?
  {
    var m, rest := c.gops[0].latestMeta.value, c.gops[1..];
    var d := if rest == [] then c.(gops := [], current := Led(c.current, m))
             else c.(gops := [Led(rest[0], m)] + rest[1..]);
    d.(firstMedia := FirstMediaOf(d.gops, d.current), firstMeta := FirstMetaOf(d.gops, d.current))
  }

  // Whether, without its oldest group, the cache still spans the required duration.
  predicate MayPop(c: Cache) {
    && c.gops != []
    && SecondGop(c).firstMedia.Some? && SecondGop(c).firstMedia.value.IsMedia()
    && c.latestMedia.Some? && c.latestMedia.value.IsMedia()
    && c.latestMedia.value.dts - SecondGop(c).firstMedia.value.dts >= c.minMs
  }

  // In a queue only the first media frame may be a keyframe, and inter frames need it to be one.
  predicate Shaped(s: seq<Frame>) {
    s == [] ||
    (var init, f := s[..|s| - 1], s[|s| - 1];
     && Shaped(init)
     && (f.IsKeyframe() ==> FirstMedia(init).None?)
     && (f.IsInter() ==> FirstMedia(init).Some? && FirstMedia(init).value.IsKeyframe()))
  }

  predicate GoodQueue(q: Queue) { Consistent(q) && LatestMetaExact(q) && Shaped(q.frames) }

  predicate QueuesGood(c: Cache) {
    (forall i :: 0 <= i < |c.gops| ==> GoodQueue(c.gops[i])) && GoodQueue(c.current)
  }

  // Every closed group has media, the oldest group alone starts with metadata, and the cache-wide pointers agree with
  // those of the oldest and the current group.
  predicate Linked(c: Cache) {
    && (forall i :: 0 <= i < |c.gops| ==>
          c.gops[i].firstMedia.Some? && c.gops[i].frames != [] && (c.gops[i].frames[0].Meta? <==> i == 0))
    && (if c.gops == [] then c.current.frames == [] || c.current.frames[0].Meta?
        else c.current.firstMedia.Some? && c.current.frames != [] && c.current.frames[0].IsMedia())
    && (FirstGop(c).frames != [] ==> FirstGop(c).firstMeta == Some(FirstGop(c).frames[0]))
    && c.firstMedia == FirstGop(c).firstMedia
    && c.firstMeta == FirstGop(c).firstMeta
    && c.latestMedia == c.current.latestMedia
    && (c.latestMeta.Some? <==> FirstGop(c).frames != [])
    && (c.latestMeta.Some? ==> c.latestMeta.value.Meta?)
  }

  predicate GoodCache(c: Cache) { QueuesGood(c) && Linked(c) }

  lemma {:induction false} PushedFrontGood(q: Queue, m: Frame)
    requires GoodQueue(q) && !StartsWithMeta(q.frames) && m.Meta?
    ensures GoodQueue(Led(q, m)) && Led(q, m).frames == [m] + q.frames
    ensures Led(q, m).firstMedia == q.firstMedia && Led(q, m).latestMedia == q.latestMedia
  {
    PushFrontMeta(q, m);
    ShapedLed(q.frames, m);
  }

  lemma {:induction false} ShapedLed(s: seq<Frame>, m: Frame)
    requires Shaped(s) && m.Meta?
    ensures Shaped([m] + s)
  {
    if s == [] {
      assert [m] + s == [m] && [m][..0] == [];
    } else {
      var init := s[..|s| - 1];
      ShapedLed(init, m);
      FirstMediaConcat([m], init);
      assert ([m] + s)[..|s|] == [m] + init;
    }
  }

  lemma {:induction false} PopGopGood(c: Cache)
    requires GoodCache(c) && c.gops != []
    ensures c.gops[0].latestMeta.Some? && c.gops[0].latestMeta.value.Meta?
    ensures GoodCache(PopGop(c))
  {
    FoundMeaning(c.gops[0].frames);
    var m := c.gops[0].latestMeta.value;
    PushedFrontGood(SecondGop(c), m);
    PopGopLinked(c);
  }

  lemma {:induction false} PopGopLinked(c: Cache)
    requires Linked(c) && c.gops != [] && c.gops[0].latestMeta.Some? && c.gops[0].latestMeta.value.Meta?
    ensures Linked(PopGop(c))
    ensures PushedFront(SecondGop(c), c.gops[0].latestMeta.value).frames == [c.gops[0].latestMeta.value] + SecondGop(c).frames
    ensures var m := c.gops[0].latestMeta.value;
            && PopGop(c).gops == (if |c.gops| == 1 then [] else [PushedFront(c.gops[1], m)] + c.gops[2..])
            && PopGop(c).current == (if |c.gops| == 1 then PushedFront(c.current, m) else c.current)
  {
  }

  function UpdateGop(c: Cache): (r: Cache)
    requires GoodCache(c)
    ensures GoodCache(r)
    decreases |c.gops|
  {
    if SecondGop(c).frames == [] || !MayPop(c) then c
    else
      PopGopGood(c);
      UpdateGop(PopGop(c))
  }

  // The cache right after `f` was pushed, before old groups are dropped.
  function Pushed(c: Cache, f: Frame): Cache {
    if !OnlyMetadata(c.current) && OpensGop(c, f) && c.current.firstMedia.Some? then PushFrame(CloseGop(c), f)
    else PushFrame(c, f)
  }

  function AddFrame(c: Cache, f: Frame): (r: (Cache, bool))
    requires GoodCache(c)
    ensures GoodCache(r.0)
  {
    if !Accepts(c, f) then (c, false)
    else
      PushedGood(c, f);
      if !OnlyMetadata(c.current) && f.IsMedia() && c.minMs > 0 then (UpdateGop(Pushed(c, f)), true)
      else (Pushed(c, f), true)
  }

  lemma {:induction false} ShapedPushBack(q: Queue, f: Frame)
    requires GoodQueue(q)
    requires f.IsKeyframe() ==> q.firstMedia.None?
    requires f.IsInter() ==> q.firstMedia.Some? && q.firstMedia.value.IsKeyframe()
    ensures GoodQueue(PushedBack(q, f))
  {
    if f.Meta? {
      PushBackMeta(q, f);
      var kept := if EndsWithMeta(q.frames) then q.frames[..|q.frames| - 1] else q.frames;
      assert (kept + [f])[..|kept|] == kept;
    } else {
      PushBackMedia(q, f);
      assert (q.frames + [f])[..|q.frames|] == q.frames;
    }
  }

  lemma {:induction false} PushedGood(c: Cache, f: Frame)
    requires GoodCache(c) && Accepts(c, f)
    ensures GoodCache(Pushed(c, f))
  {
    hide Linked, GoodQueue, Accepts;
    FewWithoutMedia(c.current);
    PushedLinked(c, f);
    EmptyGood();
    AcceptedInter(c, f);
    if !OnlyMetadata(c.current) && OpensGop(c, f) && c.current.firstMedia.Some? {
      ShapedPushBack(EMPTY, f);
    } else {
      ShapedPushBack(c.current, f);
    }
  }

  lemma {:induction false} AcceptedInter(c: Cache, f: Frame)
    requires GoodCache(c) && Accepts(c, f)
    ensures f.IsInter() ==> c.current.firstMedia.Some? && c.current.firstMedia.value.IsKeyframe()
  {
    FewWithoutMedia(c.current);
  }

  lemma {:induction false} FewWithoutMedia(q: Queue)
    requires GoodQueue(q)
    ensures q.firstMedia.None? ==> |q.frames| <= 1
    ensures |q.frames| <= 1 ==> !(q.firstMedia.Some? && StartsWithMeta(q.frames))
    ensures q.frames != [] && q.frames[0].Meta? ==> q.firstMeta == Some(q.frames[0])
    ensures q.frames == [] ==> q.firstMeta.None? && q.firstMedia.None?
  {
    FoundMeaning(q.frames);
  }

  lemma {:induction false} PushedLinked(c: Cache, f: Frame)
    requires Linked(c) && Accepts(c, f)
    requires c.current.firstMedia.None? ==> |c.current.frames| <= 1
    requires |c.current.frames| <= 1 ==> !(c.current.firstMedia.Some? && StartsWithMeta(c.current.frames))
    requires c.current.frames == [] ==> c.current.firstMeta.None? && c.current.firstMedia.None?
    ensures Linked(Pushed(c, f))
  {
  }

  lemma {:induction false} EmptyGood()
    ensures GoodQueue(EMPTY)
  {
  }

  // ---------------------------------------------------------------------------
  // Size and duration

  function FirstMediaGop(gops: seq<Queue>, current: Queue): Queue {
    if gops == [] then current
    else if gops[0].firstMedia.Some? then gops[0]
    else FirstMediaGop(gops[1..], current)
  }

  function LastMediaGop(gops: seq<Queue>, current: Queue): Queue {
    if current.firstMedia.Some? then current
    else if gops == [] then EMPTY
    else if gops[|gops| - 1].firstMedia.Some? then gops[|gops| - 1]
    else LastMediaGop(gops[..|gops| - 1], current)
  }

  function Duration(c: Cache): int {
    var start, end := FirstMediaGop(c.gops, c.current).startDts, LastMediaGop(c.gops, c.current).endDts;
    if start == -1 || end == -1 then 0 else end - start
  }

  function TotalBytes(gops: seq<Queue>): nat {
    if gops == [] then 0 else TotalBytes(gops[..|gops| - 1]) + gops[|gops| - 1].bytes
  }

  function Bytes(c: Cache): nat { TotalBytes(c.gops) + c.current.bytes }

  lemma {:induction false} FlatBytes(gops: seq<Queue>)
    requires forall i :: 0 <= i < |gops| ==> GoodQueue(gops[i])
    ensures TotalBytes(gops) == MediaBytes(Flat(gops))
  {
    if gops != [] {
      FlatBytes(gops[..|gops| - 1]);
      MediaBytesConcat(Flat(gops[..|gops| - 1]), gops[|gops| - 1].frames);
    }
  }

  // The counts kept queue by queue add up to the bytes of all cached media frames.
  lemma {:induction false} BytesExact(c: Cache)
    requires GoodCache(c)
    ensures Bytes(c) == MediaBytes(AllFrames(c))
  {
    FlatBytes(c.gops);
    MediaBytesConcat(Flat(c.gops), c.current.frames);
  }
}
