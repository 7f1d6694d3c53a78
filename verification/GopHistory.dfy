/** The cache over whole runs, against the history of accepted frames. */
module GopHistory {
  import opened Frames
  import opened FrameQueue
  import opened GopCache
  import opened Options

  // ---------------------------------------------------------------------------
  // A frame sequence that keeps up with the cache

  function CurrentKey(c: Cache): Option<Frame> {
    if c.current.firstMedia.Some? && c.current.firstMedia.value.IsKeyframe() then c.current.firstMedia else None
  }

  // `s` tells a receiver, for the last media frames of the history `h`, exactly what `h` tells, and its receiver is
  // ready for whatever the cache accepts next.
  ghost predicate Tracks(s: seq<Frame>, c: Cache, h: seq<Frame>) {
    && IsSuffix(Entries(NOTHING, s), Entries(NOTHING, h))
    && After(NOTHING, s).meta == After(NOTHING, h).meta
    && (CurrentKey(c).Some? ==> After(NOTHING, s).key == CurrentKey(c))
  }

  predicate AllDecodable(es: seq<Entry>) {
    forall i :: 0 <= i < |es| ==> es[i].Decodable()
  }

  // The history `h` is decodable throughout, and so are its last frames as cached.
  ghost predicate Faithful(c: Cache, h: seq<Frame>) {
    && GoodCache(c)
    && AllDecodable(Entries(NOTHING, h))
    && Tracks(h, c, h)
    && Tracks(AllFrames(c), c, h)
  }

  lemma {:induction false} SuffixAppend<T>(s: seq<T>, t: seq<T>, x: seq<T>)
    requires IsSuffix(s, t)
    ensures IsSuffix(s + x, t + x)
  {
  }

  lemma {:induction false} SuffixTransitive<T>(r: seq<T>, s: seq<T>, t: seq<T>)
    requires IsSuffix(r, s) && IsSuffix(s, t)
    ensures IsSuffix(r, t)
  {
  }

  // ---------------------------------------------------------------------------
  // Pushing a frame

  lemma {:induction false} CurrentKeyPushed(c: Cache, f: Frame)
    requires GoodCache(c) && Accepts(c, f)
    ensures f.IsKeyframe() ==> CurrentKey(Pushed(c, f)) == Some(f)
    ensures CurrentKey(Pushed(c, f)).Some? && !f.IsKeyframe() ==> CurrentKey(Pushed(c, f)) == CurrentKey(c)
    ensures f.IsInter() ==> CurrentKey(c).Some?
    ensures f.IsMedia() ==> c.latestMeta.Some? && FirstGop(c).frames != []
  {
    FewWithoutMedia(c.current);
  }

  // Whatever kept up with the cache still does after receiving the accepted frame.
  lemma {:induction false} TracksPushed(s: seq<Frame>, c: Cache, h: seq<Frame>, f: Frame)
    requires GoodCache(c) && Accepts(c, f) && Tracks(s, c, h) && Tracks(h, c, h)
    ensures Tracks(s + [f], Pushed(c, f), h + [f])
  {
    hide GoodCache, Pushed, Accepts, CurrentKey, Entries, After;
    CurrentKeyPushed(c, f);
    EntriesAppend(NOTHING, s, f);
    EntriesAppend(NOTHING, h, f);
    var x := if f.IsMedia() then [EntryOf(After(NOTHING, s), f)] else [];
    SuffixAppend(Entries(NOTHING, s), Entries(NOTHING, h), x);
    assert Entries(NOTHING, s) + [] == Entries(NOTHING, s);
    assert Entries(NOTHING, h) + [] == Entries(NOTHING, h);
  }

  lemma {:induction false} AllFramesPushed(c: Cache, f: Frame)
    requires GoodCache(c) && Accepts(c, f)
    ensures var a := AllFrames(c);
            AllFrames(Pushed(c, f)) == if f.Meta? && EndsWithMeta(a) then a[..|a| - 1] + [f] else a + [f]
  {
    if !OnlyMetadata(c.current) && OpensGop(c, f) && c.current.firstMedia.Some? {
      assert (c.gops + [c.current])[..|c.gops|] == c.gops;
    } else {
      FewWithoutMedia(c.current);
      assert c.gops != [] ==> c.current.frames != [];
    }
  }

  lemma {:induction false} DecodablePushed(c: Cache, h: seq<Frame>, f: Frame)
    requires Faithful(c, h) && Accepts(c, f)
    ensures AllDecodable(Entries(NOTHING, h + [f]))
  {
    EntriesAppend(NOTHING, h, f);
    if f.IsMedia() {
      CurrentKeyPushed(c, f);
      StartsDecodable(c);
      AfterIsLastMeta(AllFrames(c));
      LastMetaConcat(AllFrames(c)[..1], AllFrames(c)[1..]);
      assert AllFrames(c) == AllFrames(c)[..1] + AllFrames(c)[1..];
    }
  }

  lemma {:induction false} FlatFront(gops: seq<Queue>)
    requires gops != []
    ensures Flat(gops) == gops[0].frames + Flat(gops[1..])
  {
    if |gops| > 1 {
      var init := gops[..|gops| - 1];
      FlatFront(init);
      assert init[1..] == gops[1..][..|gops| - 2];
    } else {
      assert gops[..0] == [];
    }
  }

  lemma {:induction false} StartsDecodable(c: Cache)
    requires GoodCache(c) && FirstGop(c).frames != []
    ensures StartsWithMeta(AllFrames(c))
  {
    if c.gops != [] {
      FlatFront(c.gops);
    }
  }

  lemma {:induction false} PushedFaithful(c: Cache, h: seq<Frame>, f: Frame)
    requires Faithful(c, h) && Accepts(c, f)
    ensures Faithful(Pushed(c, f), h + [f])
  {
    hide GoodCache, Pushed, Accepts, CurrentKey, Entries, After, AllFrames;
    var a := AllFrames(c);
    PushedGood(c, f);
    DecodablePushed(c, h, f);
    TracksPushed(h, c, h, f);
    TracksPushed(a, c, h, f);
    AllFramesPushed(c, f);
    EntriesAppend(NOTHING, a, f);
    if f.Meta? && EndsWithMeta(a) {
      ReplaceTrailingMeta(NOTHING, a, f);
    }
  }

  // ---------------------------------------------------------------------------
  // Dropping the oldest group

  // The frames behind the oldest group.
  function Behind(c: Cache): seq<Frame>
    requires c.gops != []
  {
    Flat(c.gops[1..]) + c.current.frames
  }

  lemma {:induction false} ShapedIsKeyLed(s: seq<Frame>)
    requires Shaped(s)
    ensures KeyLed(s)
    ensures FirstMedia(s).Some? && FirstMedia(s).value.IsKeyframe() ==>
      forall k :: After(k, s).key == FirstMedia(s)
  {
    if s != [] {
      var init, f := s[..|s| - 1], s[|s| - 1];
      ShapedIsKeyLed(init);
      FirstMediaConcat(init, [f]);
      assert s == init + [f];
      KeyLedAppend(init, f);
    }
  }

  lemma {:induction false} KeyLedAppend(s: seq<Frame>, f: Frame)
    requires KeyLed(s)
    requires f.IsInter() ==> FirstMedia(s).Some? && FirstMedia(s).value.IsKeyframe()
    ensures KeyLed(s + [f])
  {
    if s != [] {
      assert (s + [f])[1..] == s[1..] + [f];
      if !s[0].Video? {
        if s[0].Meta? || !f.IsInter() { KeyLedAppend(s[1..], f); }
      }
    }
  }

  lemma {:induction false} FlatKeyLed(gops: seq<Queue>)
    requires forall i :: 0 <= i < |gops| ==> Shaped(gops[i].frames)
    ensures KeyLed(Flat(gops))
  {
    if gops != [] {
      FlatKeyLed(gops[..|gops| - 1]);
      ShapedIsKeyLed(gops[|gops| - 1].frames);
      KeyLedConcat(Flat(gops[..|gops| - 1]), gops[|gops| - 1].frames);
    }
  }

  lemma {:induction false} FramesBehind(c: Cache)
    requires c.gops != []
    ensures AllFrames(c) == c.gops[0].frames + Behind(c)
  {
    hide Flat;
    FlatFront(c.gops);
  }

  lemma {:induction false} AllFramesPopped(c: Cache)
    requires Linked(c) && c.gops != [] && c.gops[0].latestMeta.Some? && c.gops[0].latestMeta.value.Meta?
    ensures AllFrames(c) == c.gops[0].frames + Behind(c)
    ensures AllFrames(PopGop(c)) == [c.gops[0].latestMeta.value] + Behind(c)
  {
    FramesBehind(c);
    PopGopLinked(c);
    FlatNone();
    hide Linked, PopGop, PushedFront, Flat;
    var m, d := c.gops[0].latestMeta.value, PopGop(c);
    if |c.gops| == 1 {
      assert AllFrames(d) == [] + ([m] + c.current.frames);
    } else {
      FlatPopped(c.gops, d.gops, m);
      FrontMoved(m, Flat(c.gops[1..]), c.current.frames);
    }
  }

  lemma {:induction false} FrontMoved(m: Frame, x: seq<Frame>, y: seq<Frame>)
    ensures ([m] + x) + y == [m] + (x + y)
  {
  }

  lemma {:induction false} FlatPopped(gops: seq<Queue>, led: seq<Queue>, m: Frame)
    requires |gops| > 1 && |led| == |gops| - 1 && led[1..] == gops[2..] && led[0].frames == [m] + gops[1].frames
    ensures Flat(led) == [m] + Flat(gops[1..])
  {
    hide Flat;
    assert gops[1..][1..] == gops[2..];
    FlatLed(led, m, gops[1..]);
  }

  lemma {:induction false} FlatNone()
    ensures Flat([]) == []
  {
  }

  lemma {:induction false} FlatLed(led: seq<Queue>, m: Frame, gops: seq<Queue>)
    requires |led| == |gops| > 0 && led[1..] == gops[1..] && led[0].frames == [m] + gops[0].frames
    ensures Flat(led) == [m] + Flat(gops)
  {
    hide Flat;
    FlatFront(led);
    FlatFront(gops);
    var x, y := gops[0].frames, Flat(gops[1..]);
    assert ([m] + x) + y == [m] + (x + y);
  }

  lemma {:induction false} PoppedKeeps(c: Cache)
    requires Linked(c) && c.gops != [] && c.gops[0].latestMeta.Some? && c.gops[0].latestMeta.value.Meta?
    ensures CurrentKey(PopGop(c)) == CurrentKey(c)
    ensures PopGop(c).latestMedia == c.latestMedia && PopGop(c).minMs == c.minMs
  {
    PopGopLinked(c);
  }

  lemma {:induction false} BehindKeyLed(c: Cache)
    requires QueuesGood(c) && c.gops != []
    ensures KeyLed(Behind(c))
  {
    FlatKeyLed(c.gops[1..]);
    ShapedIsKeyLed(c.current.frames);
    KeyLedConcat(Flat(c.gops[1..]), c.current.frames);
  }

  // The metadata carried forward is the one that governed the dropped tail, so no retained frame changes meaning.
  lemma {:induction false} PoppedFaithful(c: Cache, h: seq<Frame>)
    requires Faithful(c, h) && c.gops != [] && c.gops[0].latestMeta.Some?
    ensures Faithful(PopGop(c), h)
  {
    hide Linked, Entries, After, AllFrames, PopGop, CurrentKey, LastMeta;
    PopGopGood(c);
    AllFramesPopped(c);
    PoppedKeeps(c);
    var m, r := c.gops[0].latestMeta.value, Behind(c);
    var a, b := AllFrames(c), AllFrames(PopGop(c));
    EntriesConcat(NOTHING, c.gops[0].frames, r);
    AfterConcat(NOTHING, c.gops[0].frames, r);
    EntriesConcat(NOTHING, [m], r);
    AfterConcat(NOTHING, [m], r);
    EntriesOfOne(NOTHING, m);
    AfterIsLastMeta(c.gops[0].frames);
    var x, y := After(NOTHING, c.gops[0].frames), After(NOTHING, [m]);
    BehindKeyLed(c);
    KeyLedForgetsKey(x, y, r);
    AfterMeta(x, y, r);
    assert IsSuffix(Entries(NOTHING, b), Entries(NOTHING, a));
    SuffixTransitive(Entries(NOTHING, b), Entries(NOTHING, a), Entries(NOTHING, h));
    if CurrentKey(c).Some? {
      CurrentKeyLast(PopGop(c));
    }
  }

  lemma {:induction false} CurrentKeyLast(c: Cache)
    requires GoodCache(c) && CurrentKey(c).Some?
    ensures After(NOTHING, AllFrames(c)).key == CurrentKey(c)
  {
    AfterConcat(NOTHING, Flat(c.gops), c.current.frames);
    ShapedIsKeyLed(c.current.frames);
  }

  lemma {:induction false} UpdatedFaithful(c: Cache, h: seq<Frame>)
    requires Faithful(c, h)
    ensures Faithful(UpdateGop(c), h)
    decreases |c.gops|
  {
    if SecondGop(c).frames != [] && MayPop(c) {
      PopGopGood(c);
      PoppedFaithful(c, h);
      UpdatedFaithful(PopGop(c), h);
    }
  }

  // Dropping groups does not disturb any sequence that keeps up with the cache.
  lemma {:induction false} TracksUpdated(s: seq<Frame>, c: Cache, h: seq<Frame>)
    requires GoodCache(c) && Tracks(s, c, h)
    ensures Tracks(s, UpdateGop(c), h)
    decreases |c.gops|
  {
    if SecondGop(c).frames != [] && MayPop(c) {
      PopGopGood(c);
      PoppedKeeps(c);
      TracksUpdated(s, PopGop(c), h);
    }
  }

  // ---------------------------------------------------------------------------
  // Whole runs

  datatype Event = Add(f: Frame) | SetMin(ms: int) | Clear

  datatype Past = Past(cache: Cache, accepted: seq<Frame>)

  function Next(p: Past, e: Event): (r: Past)
    requires GoodCache(p.cache)
    ensures GoodCache(r.cache)
  {
    match e
    case Add(f) =>
      var (c, added) := AddFrame(p.cache, f);
      Past(c, if added then p.accepted + [f] else p.accepted)
    case SetMin(ms) => p.(cache := p.cache.(minMs := ms))
    case Clear =>
      EmptyGood();
      Past(EMPTY_CACHE.(minMs := p.cache.minMs), [])
  }

  // The cache after `es`, with the frames accepted since it was last cleared.
  function Run(es: seq<Event>): (r: Past)
    ensures GoodCache(r.cache)
  {
    if es == [] then
      EmptyGood();
      Past(EMPTY_CACHE, [])
    else Next(Run(es[..|es| - 1]), es[|es| - 1])
  }

  lemma {:induction false} AddedFaithful(c: Cache, h: seq<Frame>, f: Frame)
    requires Faithful(c, h)
    ensures var (d, added) := AddFrame(c, f); Faithful(d, if added then h + [f] else h)
  {
    if Accepts(c, f) {
      PushedFaithful(c, h, f);
      if !OnlyMetadata(c.current) && f.IsMedia() && c.minMs > 0 {
        UpdatedFaithful(Pushed(c, f), h + [f]);
      }
    }
  }

  // In every run the cached frames are, to a receiver, exactly the last part of the accepted history: a contiguous
  // suffix of its media frames, each under the same metadata and, if it is an inter frame, the same keyframe. Every
  // accepted media frame has metadata before it, and every accepted inter frame a keyframe.
  lemma {:induction false} RunFaithful(es: seq<Event>)
    ensures Faithful(Run(es).cache, Run(es).accepted)
  {
    EmptyGood();
    if es != [] {
      var p, e := Run(es[..|es| - 1]), es[|es| - 1];
      RunFaithful(es[..|es| - 1]);
      if e.Add? {
        AddedFaithful(p.cache, p.accepted, e.f);
      }
    }
  }

  function MediaOf(es: seq<Entry>): seq<Frame> { seq(|es|, i requires 0 <= i < |es| => es[i].frame) }

  function MediaFrames(s: seq<Frame>): seq<Frame> {
    if s == [] then [] else MediaFrames(s[..|s| - 1]) + (if s[|s| - 1].IsMedia() then [s[|s| - 1]] else [])
  }

  lemma {:induction false} EntriesAreMediaFrames(c: Context, s: seq<Frame>)
    ensures MediaOf(Entries(c, s)) == MediaFrames(s)
  {
    if s != [] {
      EntriesAreMediaFrames(c, s[..|s| - 1]);
    }
  }

  lemma {:induction false} SuffixOfMedia(x: seq<Entry>, y: seq<Entry>)
    requires IsSuffix(x, y)
    ensures IsSuffix(MediaOf(x), MediaOf(y))
  {
  }

  lemma {:induction false} EmptyStart(c: Cache)
    requires GoodCache(c)
    ensures AllFrames(c) != [] ==> AllFrames(c)[0].Meta?
  {
    if AllFrames(c) != [] { StartsDecodable(c); }
  }

  // Read off for the bare frames: the cached media frames are a contiguous suffix of the accepted ones, the cache
  // starts with metadata unless it is empty, and no two metadata frames are adjacent.
  lemma {:induction false} RunMediaSuffix(es: seq<Event>)
    ensures var a := AllFrames(Run(es).cache);
            && IsSuffix(MediaFrames(a), MediaFrames(Run(es).accepted))
            && (a != [] ==> a[0].Meta?)
            && NoAdjacentMetas(a)
  {
    hide Entries, AllFrames, GoodCache, MediaFrames, MediaOf, Run;
    RunFaithful(es);
    var c, h := Run(es).cache, Run(es).accepted;
    var x, y := Entries(NOTHING, AllFrames(c)), Entries(NOTHING, h);
    EntriesAreMediaFrames(NOTHING, AllFrames(c));
    EntriesAreMediaFrames(NOTHING, h);
    SuffixOfMedia(x, y);
    EmptyStart(c);
    CacheNoAdjacentMetas(c);
  }

  lemma {:induction false} FlatNoAdjacentMetas(gops: seq<Queue>)
    requires forall i :: 0 <= i < |gops| ==> GoodQueue(gops[i]) && (i > 0 ==> !StartsWithMeta(gops[i].frames))
    ensures NoAdjacentMetas(Flat(gops))
  {
    if gops != [] {
      FlatNoAdjacentMetas(gops[..|gops| - 1]);
      NoAdjacentMetasConcat(Flat(gops[..|gops| - 1]), gops[|gops| - 1].frames);
    }
  }

  lemma {:induction false} CacheNoAdjacentMetas(c: Cache)
    requires GoodCache(c)
    ensures var a := AllFrames(c);
      NoAdjacentMetas(a) && forall i :: 0 <= i < |a| - 1 && a[i].Meta? ==> a[i + 1].IsMedia()
  {
    FlatNoAdjacentMetas(c.gops);
    NoAdjacentMetasConcat(Flat(c.gops), c.current.frames);
    var a := AllFrames(c);
    forall i | 0 <= i < |a| - 1 && a[i].Meta? ensures a[i + 1].IsMedia() { NoAdjacentMetasMeaning(a, i); }
  }

  lemma {:induction false} MediaFramesBytes(s: seq<Frame>)
    ensures MediaBytes(MediaFrames(s)) == MediaBytes(s)
  {
    if s != [] {
      var init, f := s[..|s| - 1], s[|s| - 1];
      MediaFramesBytes(init);
      assert [f][..0] == [];
      MediaBytesConcat(MediaFrames(init), if f.IsMedia() then [f] else []);
    }
  }

  // In every run the byte count, kept queue by queue, is the bytes of the last so many accepted media frames.
  lemma {:induction false} RunBytes(es: seq<Event>) returns (k: nat)
    ensures var accepted := MediaFrames(Run(es).accepted);
      k <= |accepted| && MediaFrames(AllFrames(Run(es).cache)) == accepted[k..]
      && Bytes(Run(es).cache) == MediaBytes(accepted[k..])
  {
    hide Run, MediaFrames, GoodCache, AllFrames, Bytes;
    RunMediaSuffix(es);
    var a := AllFrames(Run(es).cache);
    k := |MediaFrames(Run(es).accepted)| - |MediaFrames(a)|;
    BytesExact(Run(es).cache);
    MediaFramesBytes(a);
  }

  // ---------------------------------------------------------------------------
  // Duration

  // Milliseconds from the first media frame behind the oldest group to the latest media frame.
  function SpanBehind(c: Cache): int
    requires GoodCache(c) && c.gops != []
  {
    GoodMedia(c);
    c.latestMedia.value.dts - SecondGop(c).firstMedia.value.dts
  }

  // Milliseconds from the first to the latest cached media frame.
  function Span(c: Cache): int
    requires GoodCache(c) && c.current.firstMedia.Some?
  {
    GoodMedia(c);
    c.latestMedia.value.dts - c.firstMedia.value.dts
  }

  lemma {:induction false} GoodMedia(c: Cache)
    requires GoodCache(c) && c.current.firstMedia.Some?
    ensures c.latestMedia.Some? && c.latestMedia.value.IsMedia()
    ensures c.firstMedia.Some? && c.firstMedia.value.IsMedia()
    ensures SecondGop(c).firstMedia.Some? ==> SecondGop(c).firstMedia.value.IsMedia()
    ensures c.gops != [] ==> SecondGop(c).firstMedia.Some? && SecondGop(c).frames != []
  {
    FoundMeaning(c.current.frames);
    FoundMeaning(FirstGop(c).frames);
    FoundMeaning(SecondGop(c).frames);
    FirstLastAgree(c.current.frames);
  }

  lemma {:induction false} FirstLastAgree(s: seq<Frame>)
    ensures FirstMedia(s).Some? <==> LastMedia(s).Some?
  {
    FoundMeaning(s);
  }

  // Groups are dropped exactly as long as the rest still spans the required duration: what remains would fall below
  // it without its oldest group, and a cache that did drop groups still spans it.
  lemma {:induction false} UpdatedSpan(c: Cache)
    requires GoodCache(c) && c.current.firstMedia.Some?
    ensures var d := UpdateGop(c);
      && d.current.firstMedia.Some? && d.minMs == c.minMs && d.latestMedia == c.latestMedia
      && |d.gops| <= |c.gops|
      && (d.gops != [] ==> SpanBehind(d) < c.minMs)
      && (|d.gops| < |c.gops| ==> Span(d) >= c.minMs)
      && (|d.gops| == |c.gops| ==> d == c)
    decreases |c.gops|
  {
    GoodMedia(c);
    if SecondGop(c).frames != [] && MayPop(c) {
      PopGopGood(c);
      PopGopLinked(c);
      var d := PopGop(c);
      assert d.firstMedia == SecondGop(c).firstMedia;
      UpdatedSpan(d);
    }
  }

  // After every accepted media frame, with a required duration set, no closed group is left to spare.
  lemma {:induction false} AddedSpan(c: Cache, f: Frame)
    requires GoodCache(c) && c.minMs > 0 && f.IsMedia() && Accepts(c, f)
    ensures var d := AddFrame(c, f).0;
      && d.current.firstMedia.Some?
      && (d.gops != [] ==> SpanBehind(d) < c.minMs)
      && (|d.gops| < |Pushed(c, f).gops| ==> Span(d) >= c.minMs)
  {
    PushedGood(c, f);
    PushedHasMedia(c, f);
    UpdatedSpan(Pushed(c, f));
  }

  lemma {:induction false} PushedHasMedia(c: Cache, f: Frame)
    requires f.IsMedia()
    ensures Pushed(c, f).current.firstMedia.Some? && Pushed(c, f).minMs == c.minMs
  {
  }

  // ---------------------------------------------------------------------------
  // The pointer to the latest metadata

  // No group is closed, and the accepted frame `f` closes none.
  predicate StaysAlone(c: Cache, f: Frame) {
    c.gops == [] && (OnlyMetadata(c.current) || !OpensGop(c, f) || c.current.firstMedia.None?)
  }

  lemma {:induction false} UpdatedMeta(c: Cache)
    requires GoodCache(c)
    ensures var d := UpdateGop(c); d.latestMeta == c.latestMeta && LastMeta(AllFrames(d)) == LastMeta(AllFrames(c))
    decreases |c.gops|
  {
    hide AllFrames, LastMeta;
    if SecondGop(c).frames != [] && MayPop(c) {
      PopGopGood(c);
      PoppedMeta(c);
      UpdatedMeta(PopGop(c));
    }
  }

  lemma {:induction false} PoppedMeta(c: Cache)
    requires GoodCache(c) && c.gops != [] && c.gops[0].latestMeta.Some? && c.gops[0].latestMeta.value.Meta?
    ensures PopGop(c).latestMeta == c.latestMeta && LastMeta(AllFrames(PopGop(c))) == LastMeta(AllFrames(c))
  {
    AllFramesPopped(c);
    var m := c.gops[0].latestMeta.value;
    assert LastMeta([m]) == Some(m);
    LastMetaConcat([m], Behind(c));
    LastMetaConcat(c.gops[0].frames, Behind(c));
  }

  // Where the pointer stands after any accepted frame: as long as no group is closed, at the first cached metadata;
  // else at metadata just added, and media leaves it alone. So media, too, can move it: back to the metadata carried
  // over when all groups but the current one are gone.
  lemma {:induction false} LatestMetaPointer(c: Cache, f: Frame)
    requires GoodCache(c) && Accepts(c, f)
    ensures var d := AddFrame(c, f).0;
      if StaysAlone(c, f) then d.latestMeta == Some(if c.current.firstMedia.None? && f.Meta? then f else c.current.frames[0])
      else d.latestMeta == if f.Meta? then Some(f) else c.latestMeta
  {
    PushedGood(c, f);
    PushedPointer(c, f);
    hide GoodCache, AllFrames, UpdateGop, Pushed, Accepts, StaysAlone;
    UpdatedMeta(Pushed(c, f));
  }

  lemma {:induction false} PushedPointer(c: Cache, f: Frame)
    requires GoodCache(c) && Accepts(c, f)
    ensures var d := Pushed(c, f);
      if StaysAlone(c, f) then
        (f.IsMedia() ==> c.current.frames != [])
        && d.latestMeta == Some(if c.current.firstMedia.None? && f.Meta? then f else c.current.frames[0])
      else d.latestMeta == if f.Meta? then Some(f) else c.latestMeta
  {
    FewWithoutMedia(c.current);
  }

  // After an accepted frame the pointer is at the last cached metadata exactly when, with no group closed, the added
  // metadata or the last cached one is the first; otherwise exactly when it is metadata or the pointer was there.
  lemma {:induction false} LatestMetaExact(c: Cache, f: Frame)
    requires GoodCache(c) && Accepts(c, f)
    ensures var d := AddFrame(c, f).0;
      d.latestMeta == LastMeta(AllFrames(d)) <==>
        if StaysAlone(c, f) then
          if f.Meta? then c.current.firstMedia.None? || c.current.frames[0] == f
          else LastMeta(c.current.frames) == Some(c.current.frames[0])
        else f.Meta? || c.latestMeta == LastMeta(AllFrames(c))
  {
    PushedGood(c, f);
    LatestMetaPointer(c, f);
    LastMetaPushed(c, f);
    hide GoodCache, AllFrames, LastMeta, Pushed;
    UpdatedMeta(Pushed(c, f));
  }

  lemma {:induction false} LastMetaPushed(c: Cache, f: Frame)
    requires GoodCache(c) && Accepts(c, f)
    ensures LastMeta(AllFrames(Pushed(c, f))) == if f.Meta? then Some(f) else LastMeta(AllFrames(c))
    ensures StaysAlone(c, f) && f.IsMedia() ==> AllFrames(c) == c.current.frames && c.current.frames != []
  {
    AllFramesPushed(c, f);
    var a := AllFrames(c);
    assert (a + [f])[..|a|] == a;
    if f.Meta? && EndsWithMeta(a) { assert (a[..|a| - 1] + [f])[..|a| - 1] == a[..|a| - 1]; }
    assert c.gops == [] ==> AllFrames(c) == c.current.frames;
  }

  lemma {:induction false} RunAccepting(es: seq<Event>, f: Frame)
    requires Accepts(Run(es).cache, f) && Run(es).cache.minMs <= 0
    ensures Run(es + [Add(f)]) == Past(Pushed(Run(es).cache, f), Run(es).accepted + [f])
  {
    assert (es + [Add(f)])[..|es|] == es;
  }

  // A cache that has closed no group yet.
  function Alone(q: Queue): Cache { Cache(-1, q.firstMeta, q.firstMeta, q.firstMedia, q.latestMedia, q, []) }

  lemma {:induction false} PushedAlone(q: Queue, f: Frame)
    requires f.Meta? || OnlyMetadata(q) || q.firstMedia.None?
    ensures Pushed(Alone(q), f) == Alone(PushedBack(q, f))
  {
    hide PushedBack;
  }

  // So a stream that switches to audio-only metadata inside its first group still has its video frames accepted.
  lemma {:induction false} LatestMetaStale()
    ensures var m, k, n := Meta(0, true, true), Video(1, 0, 9, true), Meta(2, true, false);
      var p := Run([Add(m), Add(k), Add(n)]);
      && p.accepted == [m, k, n] && AllFrames(p.cache) == [m, k, n]
      && p.cache.latestMeta == Some(m) && Accepts(p.cache, Video(3, 40, 9, false))
  {
    hide GoodCache, UpdateGop, Pushed;
    var m, k, n := Meta(0, true, true), Video(1, 0, 9, true), Meta(2, true, false);
    var q1 := Queue([m], Some(m), Some(m), None, None, -1, -1, 0);
    var q2 := Queue([m, k], Some(m), Some(m), Some(k), Some(k), 0, 0, 9);
    assert PushedBack(EMPTY, m) == q1 && PushedBack(q1, k) == q2;
    assert PushedBack(q2, n) == Queue([m, k, n], Some(m), Some(n), Some(k), Some(k), 0, 0, 9);
    hide PushedBack;
    assert Run([]) == Past(EMPTY_CACHE, []);
    PushedAlone(EMPTY, m);
    RunAccepting([], m);
    assert [] + [Add(m)] == [Add(m)];
    PushedAlone(q1, k);
    RunAccepting([Add(m)], k);
    assert [Add(m)] + [Add(k)] == [Add(m), Add(k)];
    PushedAlone(q2, n);
    RunAccepting([Add(m), Add(k)], n);
    assert [Add(m), Add(k)] + [Add(n)] == [Add(m), Add(k), Add(n)];
  }

  // A run in which media moves the pointer, and the caches on its way.
  const SCENE := [
    Meta(0, true, true), Video(1, 0, 9, true), Video(3, 1000, 9, true), Meta(2, false, true),
    Video(4, 2000, 9, false), Video(5, 2040, 9, false)]

  function SceneCache(i: nat): Cache {
    var m, k, l, n, v, w := SCENE[0], SCENE[1], SCENE[2], SCENE[3], SCENE[4], SCENE[5];
    var closed := Queue([m, k], Some(m), Some(m), Some(k), Some(k), 0, 0, 9);
    if i == 0 then EMPTY_CACHE.(minMs := 500)
    else if i == 1 then Cache(500, Some(m), Some(m), None, None, Queue([m], Some(m), Some(m), None, None, -1, -1, 0), [])
    else if i == 2 then Cache(500, Some(m), Some(m), Some(k), Some(k), closed, [])
    else if i == 3 then
      Cache(500, Some(m), Some(m), Some(k), Some(l), Queue([l], None, None, Some(l), Some(l), 1000, 1000, 9), [closed])
    else if i == 4 then
      Cache(500, Some(m), Some(n), Some(k), Some(l), Queue([l, n], Some(n), Some(n), Some(l), Some(l), 1000, 1000, 9), [closed])
    else if i == 5 then
      Cache(500, Some(m), Some(n), Some(l), Some(v), Queue([m, l, n, v], Some(m), Some(n), Some(l), Some(v), 1000, 2000, 18), [])
    else
      Cache(500, Some(m), Some(m), Some(l), Some(w),
            Queue([m, l, n, v, w], Some(m), Some(n), Some(l), Some(w), 1000, 2040, 27), [])
  }

  lemma {:induction false} ScenePushed(i: nat)
    requires i < 6 && i != 4
    ensures Accepts(SceneCache(i), SCENE[i]) && Pushed(SceneCache(i), SCENE[i]) == SceneCache(i + 1)
  {
    if i == 0 {
    } else if i == 1 {
    } else if i == 2 {
    } else if i == 3 {
    }
  }

  lemma {:induction false} SceneStays(i: nat)
    requires 0 < i <= 6 && i != 5 && GoodCache(SceneCache(i))
    ensures UpdateGop(SceneCache(i)) == SceneCache(i)
  {
    hide GoodCache;
    if i == 3 {
    } else if i == 4 {
    }
  }

  lemma {:induction false} SceneStep(i: nat)
    requires i < 6 && GoodCache(SceneCache(i))
    ensures AddFrame(SceneCache(i), SCENE[i]) == (SceneCache(i + 1), true)
  {
    hide GoodCache, SceneCache, UpdateGop, Pushed, Accepts;
    if i == 4 {
      SceneDrop();
    } else {
      ScenePushed(i);
      PushedGood(SceneCache(i), SCENE[i]);
      if i + 1 != 5 { SceneStays(i + 1); }
    }
  }

  // The fifth frame leaves the closed group to spare; its metadata goes to the front of the current one.
  lemma {:induction false} SceneDrop()
    requires GoodCache(SceneCache(4))
    ensures AddFrame(SceneCache(4), SCENE[4]) == (SceneCache(5), true)
  {
    hide GoodCache;
    var c, f := SceneCache(4), SCENE[4];
    PushedGood(c, f);
    var d := Pushed(c, f);
    assert d == c.(latestMedia := Some(f),
      current := Queue([SCENE[2], SCENE[3], f], Some(SCENE[3]), Some(SCENE[3]), Some(SCENE[2]), Some(f), 1000, 2000, 18));
    PopGopGood(d);
    assert PopGop(d) == SceneCache(5);
  }

  function Scene(i: nat): seq<Event>
    requires i <= 6
  {
    if i == 0 then [SetMin(500)] else Scene(i - 1) + [Add(SCENE[i - 1])]
  }

  lemma {:induction false} SceneRun(i: nat)
    requires i <= 6
    ensures Run(Scene(i)).cache == SceneCache(i)
  {
    hide GoodCache, AddFrame;
    if i == 0 {
      assert [SetMin(500)][..0] == [];
    } else {
      SceneRun(i - 1);
      assert (Scene(i - 1) + [Add(SCENE[i - 1])])[..|Scene(i - 1)|] == Scene(i - 1);
      SceneStep(i - 1);
    }
  }

  // Metadata without audio moves the pointer, the next video frame drops the last closed group, and the one after that
  // moves the pointer back to the metadata carried over: audio, refused before it, is accepted again.
  lemma {:induction false} LatestMetaReturns()
    ensures
      var m, n := Meta(0, true, true), Meta(2, false, true);
      var p, q, a := Run(Scene(5)).cache, Run(Scene(6)).cache, Audio(6, 2040, 1);
      && LastMeta(AllFrames(p)) == LastMeta(AllFrames(q)) == Some(n)
      && p.latestMeta == Some(n) && !Accepts(p, a)
      && q.latestMeta == Some(m) && Accepts(q, a)
  {
    SceneRun(5);
    SceneRun(6);
    SceneMetas();
    SceneAccepts();
    hide Run, Scene, SceneCache, Accepts, AllFrames, LastMeta;
  }

  lemma {:induction false} SceneMetas()
    ensures LastMeta(AllFrames(SceneCache(5))) == LastMeta(AllFrames(SceneCache(6))) == Some(Meta(2, false, true))
  {
    var m, l, n, v, w := SCENE[0], SCENE[2], SCENE[3], SCENE[4], SCENE[5];
    assert AllFrames(SceneCache(5)) == [m, l, n, v] && AllFrames(SceneCache(6)) == [m, l, n, v, w];
    assert [m, l, n, v, w][..4] == [m, l, n, v] && [m, l, n, v][..3] == [m, l, n];
  }

  lemma {:induction false} SceneAccepts()
    ensures var a := Audio(6, 2040, 1);
      && SceneCache(5).latestMeta == Some(Meta(2, false, true)) && !Accepts(SceneCache(5), a)
      && SceneCache(6).latestMeta == Some(Meta(0, true, true)) && Accepts(SceneCache(6), a)
  {
  }
}
