/** FLV tag sizes: a written stream can be walked from its end. */
module FlvBackward {
  import opened Bytes
  import opened FlvParser
  import opened FlvMux
  import opened Options

  // The tags in front of the end, each found by the size behind it, down to a size of zero.
  function Back(s: bytes): Option<seq<bytes>>
    decreases |s|
  {
    if |s| < 4 then None
    else
      var end := |s| - 4;
      var n := Read32(s[end..]);
      if n == 0 then Some([])
      else if n > end then None
      else match Back(s[..end - n])
           case None => None
           case Some(tags) => Some(tags + [s[end - n..end]])
  }

  function TagBytes(m: Media): bytes
    requires Writable(m)
  {
    TagHeaderBytes(TagOf(m)) + TagBody(m)
  }

  function AllTagBytes(ms: seq<Media>): seq<bytes>
    requires AllWritable(ms)
  {
    if ms == [] then [] else [TagBytes(ms[0])] + AllTagBytes(ms[1..])
  }

  lemma {:induction false} EndRead(x: bytes)
    requires |x| < POW32
    ensures Read32((x + Be32(|x|))[|x|..]) == |x|
  {
    Be32RoundTrip(|x|);
    hide Be32, Read32;
    assert (x + Be32(|x|))[|x|..] == Be32(|x|);
  }

  // The four bytes behind a tag give its length.
  lemma {:induction false} SizeBehind(kind: nat, body: bytes, ts: int)
    requires KnownKind(kind) && |body| + TAG_HEADER_SIZE < POW32
    ensures var d := TagData(kind, body, ts); |d| > 4 && Read32(d[|d| - 4..]) == |d| - 4
  {
    var x := TagParts(kind, body, ts);
    EndRead(x);
    hide TagData, Be32, Read32;
  }

  lemma {:induction false} TagParts(kind: nat, body: bytes, ts: int) returns (x: bytes)
    requires KnownKind(kind) && |body| + TAG_HEADER_SIZE < POW32
    ensures x == TagHeaderBytes(Tag(0, kind, |body|, ts % POW32, 0)) + body
    ensures |x| == TAG_HEADER_SIZE + |body| && TagData(kind, body, ts) == x + Be32(|x|)
  {
    hide TagHeaderBytes, Be32;
    var tag := Tag(0, kind, |body|, ts % POW32, 0);
    HeadLength(tag);
    x := TagHeaderBytes(tag) + body;
    Small(|x|);
  }

  lemma {:induction false} Small(v: nat)
    requires v < POW32
    ensures v % POW32 == v
  {
  }

  lemma {:induction false} HeadLength(tag: Tag)
    requires KnownKind(tag.kind) && tag.timestamp < POW32
    ensures |TagHeaderBytes(tag)| == TAG_HEADER_SIZE
  {
  }

  lemma {:induction false} BackStep(front: bytes, tag: bytes)
    requires 0 < |tag| < POW32 && Back(front).Some?
    ensures Back(front + (tag + Be32(|tag|))) == Some(Back(front).value + [tag])
  {
    Be32RoundTrip(|tag|);
    hide Be32, Read32;
    var s, end := front + (tag + Be32(|tag|)), |front| + |tag|;
    assert s[end..] == Be32(|tag|) && s[..end - |tag|] == front && s[end - |tag|..end] == tag;
  }

  lemma {:induction false} TagParted(m: Media)
    requires Writable(m)
    ensures 0 < |TagBytes(m)| < POW32
    ensures TagData(Kind(m), TagBody(m), m.ts) == TagBytes(m) + Be32(|TagBytes(m)|)
  {
    hide TagHeaderBytes, TagBody, Be32, Writable, MediaHead, TagData;
    var x := TagParts(Kind(m), TagBody(m), m.ts);
  }

  lemma {:induction false} TagsFront(front: bytes, ms: seq<Media>)
    requires AllWritable(ms) && ms != []
    ensures var x := TagBytes(ms[0]);
      && 0 < |x| < POW32 && front + Tags(ms) == (front + (x + Be32(|x|))) + Tags(ms[1..])
      && AllTagBytes(ms) == [x] + AllTagBytes(ms[1..])
  {
    TagParted(ms[0]);
    hide TagBytes, Be32, TagData, Writable, Kind, TagBody;
    var x := TagBytes(ms[0]);
    Regroup(front, x + Be32(|x|), Tags(ms[1..]));
  }

  lemma {:induction false} BackTags(front: bytes, ms: seq<Media>)
    requires AllWritable(ms) && Back(front).Some?
    ensures Back(front + Tags(ms)) == Some(Back(front).value + AllTagBytes(ms))
    decreases |ms|
  {
    NoTagBytes();
    hide Back, TagBytes, Be32, Writable, Tags, AllTagBytes;
    if ms == [] {
      assert front + [] == front && Back(front).value + [] == Back(front).value;
    } else {
      var x := TagBytes(ms[0]);
      TagsFront(front, ms);
      BackStep(front, x);
      BackTags(front + (x + Be32(|x|)), ms[1..]);
      Regroup(Back(front).value, [x], AllTagBytes(ms[1..]));
    }
  }

  lemma {:induction false} NoTagBytes()
    ensures Tags([]) == [] && AllTagBytes([]) == []
  {
  }

  // A written stream, read from its end, gives all its tags.
  lemma {:induction false} WalkedBackwards(audio: bool, video: bool, ms: seq<Media>)
    requires AllWritable(ms)
    ensures Back(Stream(audio, video, ms)) == Some(AllTagBytes(ms))
  {
    Be32RoundTrip(0);
    var front := HeaderData(audio, video);
    assert |front| == 13 && front[9..] == Be32(0);
    hide Be32, Read32, HeaderData;
    BackTags(front, ms);
    assert [] + AllTagBytes(ms) == AllTagBytes(ms);
  }

  // ---------------------------------------------------------------------------
  // The other form

  // Every tag is given the size of the one before it.
  predicate Chained(ts: seq<Sized>, previous: nat)
    requires AllStandard(ts)
  {
    ts == [] || (ts[0].previous == previous && Chained(ts[1..], |TagBytes(ts[0].media)|))
  }

  function LastSize(ts: seq<Sized>, previous: nat): nat
    requires AllStandard(ts)
  {
    if ts == [] then previous else LastSize(ts[1..], |TagBytes(ts[0].media)|)
  }

  lemma {:induction false} ChainedTags(ts: seq<Sized>, previous: nat)
    requires AllStandard(ts) && Chained(ts, previous) && previous < POW32
    ensures LastSize(ts, previous) < POW32
    ensures StandardTags(ts) + Be32(LastSize(ts, previous)) == Be32(previous) + Tags(Medias(ts))
    decreases |ts|
  {
    hide TagBytes, Be32, TagData, Writable;
    if ts == [] {
      assert [] + Be32(previous) == Be32(previous) + [];
    } else {
      var m, more := ts[0].media, ts[1..];
      TagParted(m);
      StandardParted(m, previous);
      ChainedTags(more, |TagBytes(m)|);
      ChainedStep(ts, previous);
      var x, last := TagBytes(m), Be32(LastSize(ts, previous));
      hide StandardTags, Tags, Medias, LastSize;
      Regroup(Be32(previous) + x, StandardTags(more), last);
      Regroup(Be32(previous), x, Be32(|x|) + Tags(Medias(more)));
    }
  }

  lemma {:induction false} ChainedStep(ts: seq<Sized>, previous: nat)
    requires AllStandard(ts) && ts != [] && previous < POW32
    ensures var m, more := ts[0].media, ts[1..];
      && LastSize(ts, previous) == LastSize(more, |TagBytes(m)|)
      && (ts[0].previous == previous ==> StandardTags(ts) == Be32(previous) + TagBytes(m) + StandardTags(more))
    ensures var m, more := ts[0].media, ts[1..]; Tags(Medias(ts)) == TagBytes(m) + (Be32(|TagBytes(m)|) + Tags(Medias(more)))
  {
    TagParted(ts[0].media);
    StandardParted(ts[0].media, previous);
    hide TagBytes, Be32, TagData, StandardTagData, Writable;
    var m, more, x := ts[0].media, ts[1..], TagBytes(ts[0].media);
    assert Medias(ts)[1..] == Medias(more) && Medias(ts)[0] == m;
    Regroup(x, Be32(|x|), Tags(Medias(more)));
  }

  lemma {:induction false} StandardParted(m: Media, previous: nat)
    requires Writable(m) && previous < POW32
    ensures StandardTagData(Kind(m), TagBody(m), previous, m.ts) == Be32(previous) + TagBytes(m)
  {
    hide TagHeaderBytes, TagBody, Be32;
  }

  // With the size of the last tag behind it, such a stream is the other muxer's, byte for byte.
  lemma {:induction false} SameStream(audio: bool, video: bool, ts: seq<Sized>)
    requires AllStandard(ts) && Chained(ts, 0)
    ensures LastSize(ts, 0) < POW32
    ensures HeaderBytes(audio, video) + (StandardTags(ts) + Be32(LastSize(ts, 0))) == Stream(audio, video, Medias(ts))
  {
    ChainedTags(ts, 0);
    hide HeaderBytes, Be32, StandardTags, Tags, LastSize, Medias;
  }
}
