/** What the FLV writers write, and the streaming parser giving it back. */
module FlvMux {
  import opened Bytes
  import opened FlvParser

  // ---------------------------------------------------------------------------
  // Writers

  function HeaderBytes(audio: bool, video: bool): bytes {
    MAGIC + [1, (if audio then 4 else 0) + (if video then 1 else 0)] + Be32(HEADER_SIZE)
  }

  // The file header with the zero tag size behind it.
  function HeaderData(audio: bool, video: bool): bytes { HeaderBytes(audio, video) + Be32(0) }

  // The low 24 bits of the timestamp come first, its high byte last.
  function TagHeaderBytes(tag: Tag): bytes
    requires KnownKind(tag.kind) && tag.timestamp < POW32
  {
    [tag.kind + tag.filter % 2 * 32] + Be24(tag.size % 0x100_0000)
    + Be24(tag.timestamp % 0x100_0000) + [tag.timestamp / 0x100_0000] + Be24(tag.streamId % 0x100_0000)
  }

  predicate AudioFields(a: AudioHead) {
    a.codec < 256 && a.codec % 16 == 0 && a.rate < 4 && a.bits < 2 && a.channels < 2
    && (AudioHasPacket(a.codec) ==> a.packet <= AVPACKET)
  }

  // Formats with a packet type are always announced as 44 kHz, 16 bit, stereo.
  function AudioHeadBytes(a: AudioHead): bytes
    requires AudioFields(a)
  {
    if AudioHasPacket(a.codec) then [a.codec + 15, a.packet] else [a.codec + a.rate * 4 + a.bits * 2 + a.channels]
  }

  predicate VideoFields(v: VideoHead) {
    v.codec < 16 && v.keyframe < 16 && (VideoHasPacket(v.codec) ==> v.packet <= END_OF_SEQUENCE && -0x80_0000 <= v.cts < 0x80_0000)
  }

  function VideoHeadBytes(v: VideoHead): bytes
    requires VideoFields(v)
  {
    var first := [v.keyframe * 16 + v.codec];
    if VideoHasPacket(v.codec) then first + [v.packet] + Be24(v.cts % 0x100_0000) else first
  }

  // A tag as its producer means it.
  datatype Media =
    | Script(ts: int, payload: bytes)
    | Sound(ts: int, codec: nat, packet: nat, payload: bytes)
    | Picture(ts: int, codec: nat, keyframe: nat, packet: nat, cts: int, payload: bytes)

  predicate Writable(m: Media) {
    match m
    case Script(_, payload) => |payload| < 0x100_0000
    case Sound(_, codec, packet, payload) =>
      AudioHasPacket(codec) && packet <= AVPACKET && |payload| + 2 < 0x100_0000
    case Picture(_, codec, keyframe, packet, cts, payload) =>
      && VideoHasPacket(codec) && keyframe < 16 && packet <= END_OF_SEQUENCE && -0x80_0000 <= cts < 0x80_0000
      && |payload| + 5 < 0x100_0000
  }

  predicate AllWritable(ms: seq<Media>) {
    ms == [] || (Writable(ms[0]) && AllWritable(ms[1..]))
  }

  // A body can be allocated for every payload.
  predicate Allocatable(u: User, ms: seq<Media>) {
    ms == [] || (u.alloc(|ms[0].payload|) && Allocatable(u, ms[1..]))
  }

  function Kind(m: Media): nat {
    match m case Script(_, _) => TYPE_SCRIPT case Sound(_, _, _, _) => TYPE_AUDIO case _ => TYPE_VIDEO
  }

  function MediaHead(m: Media): bytes
    requires Writable(m)
  {
    match m
    case Script(_, _) => []
    case Sound(_, codec, packet, _) => AudioHeadBytes(AudioHead(codec, 3, 1, 1, packet))
    case Picture(_, codec, keyframe, packet, cts, _) => VideoHeadBytes(VideoHead(codec, keyframe, packet, cts))
  }

  function TagBody(m: Media): (b: bytes)
    requires Writable(m)
    ensures |b| < 0x100_0000
  {
    MediaHead(m) + m.payload
  }

  function TagOf(m: Media): Tag
    requires Writable(m)
  {
    Tag(0, Kind(m), |TagBody(m)|, m.ts % POW32, 0)
  }

  // Tag header, body, and the size of both behind them.
  function TagData(kind: nat, body: bytes, ts: int): bytes
    requires KnownKind(kind)
  {
    TagHeaderBytes(Tag(0, kind, |body|, ts % POW32, 0)) + body + Be32((TAG_HEADER_SIZE + |body|) % POW32)
  }

  // The other form: the size of the tag before it, the tag header and the body.
  function StandardTagData(kind: nat, body: bytes, previous: nat, ts: int): bytes
    requires KnownKind(kind) && previous < POW32
  {
    Be32(previous) + TagHeaderBytes(Tag(0, kind, |body|, ts % POW32, 0)) + body
  }

  function Tags(ms: seq<Media>): bytes
    requires AllWritable(ms)
  {
    if ms == [] then [] else TagData(Kind(ms[0]), TagBody(ms[0]), ms[0].ts) + Tags(ms[1..])
  }

  datatype Sized = Sized(media: Media, previous: nat)

  function StandardTags(ts: seq<Sized>): bytes
    requires AllStandard(ts)
  {
    if ts == [] then []
    else StandardTagData(Kind(ts[0].media), TagBody(ts[0].media), ts[0].previous, ts[0].media.ts) + StandardTags(ts[1..])
  }

  predicate AllStandard(ts: seq<Sized>) {
    ts == [] || (Writable(ts[0].media) && ts[0].previous < POW32 && AllStandard(ts[1..]))
  }

  function Medias(ts: seq<Sized>): (ms: seq<Media>)
    requires AllStandard(ts)
    ensures AllWritable(ms)
  {
    if ts == [] then [] else [ts[0].media] + Medias(ts[1..])
  }

  function Stream(audio: bool, video: bool, ms: seq<Media>): bytes
    requires AllWritable(ms)
  {
    HeaderData(audio, video) + Tags(ms)
  }

  // ---------------------------------------------------------------------------
  // What the receiver is to be told

  function Told(m: Media): seq<Event>
    requires Writable(m)
  {
    var ts := m.ts % POW32;
    match m
    case Script(_, payload) => [Event(SCRIPT_METADATA, payload, ts, ts, 0)]
    case Sound(_, codec, packet, payload) =>
      var id := if packet != SEQUENCE_HEADER then codec else if codec == AUDIO_AAC then AUDIO_ASC else AUDIO_OPUS_HEAD;
      [Event(id, payload, ts, ts, 0)]
    case Picture(_, codec, keyframe, packet, cts, payload) =>
      if packet == SEQUENCE_HEADER then [Event(ConfigCodec(codec), payload, ts, ts, 0)]
      else if packet == END_OF_SEQUENCE then []
      else [Event(codec, payload, (m.ts + cts) % POW32, ts, if keyframe == 1 then 1 else 0)]
  }

  function AllTold(ms: seq<Media>): seq<Event>
    requires AllWritable(ms)
  {
    if ms == [] then [] else Told(ms[0]) + AllTold(ms[1..])
  }

  // The handler takes every event.
  predicate Accepting(u: User, log: seq<Event>, events: seq<Event>)
    decreases |events|
  {
    events == [] || (u.handler(log + [events[0]]) == 0 && Accepting(u, log + [events[0]], events[1..]))
  }

  // ---------------------------------------------------------------------------
  // Lemmas

  // Exactly the bytes a phase waits for, with more (or nothing) behind them.
  lemma {:induction false} FeedExact(u: User, p: Parser, x: bytes, rest: bytes, log: seq<Event>)
    requires Sane(p) && |x| == Needed(p) && x + rest != []
    ensures var q := p.(got := p.got + x);
      && (p.phase.Head? ==> |q.got| == HEADER_SIZE)
      && (p.phase.TagHead? ==> |q.got| == TAG_HEADER_SIZE)
      && (p.phase.Codec? ==> p.tag.kind == TYPE_AUDIO || p.tag.kind == TYPE_VIDEO ==> |q.got| == 1)
      && (p.phase.Extra? ==> Sane(q) && |q.got| == q.want)
      && var s := Finish(u, q, log);
         && (s.result == 0 ==> Sane(s.p))
         && Feed(u, p, x + rest, log) == if s.result != 0 then s else Feed(u, s.p, rest, s.log)
  {
    hide Finish;
    assert (x + rest)[..|x|] == x && (x + rest)[|x|..] == rest;
    StepSane(u, p, x + rest, log);
  }

  lemma {:induction false} HeaderRead(audio: bool, video: bool, prior: Header)
    ensures var b := HeaderBytes(audio, video);
      |b| == HEADER_SIZE
      && ReadHeader(prior, b) == Header(1, if audio then 1 else 0, if video then 1 else 0, HEADER_SIZE)
  {
    var b := HeaderBytes(audio, video);
    assert b[..3] == MAGIC && b[5..9] == Be32(HEADER_SIZE);
    Be32RoundTrip(HEADER_SIZE);
  }

  lemma {:induction false} TagRead(tag: Tag, prior: Tag)
    requires KnownKind(tag.kind) && tag.filter < 2 && tag.timestamp < POW32
    requires tag.size < 0x100_0000 && tag.streamId < 0x100_0000
    ensures |TagHeaderBytes(tag)| == TAG_HEADER_SIZE && ReadTag(prior, TagHeaderBytes(tag)) == tag
  {
    TagParts(tag);
    var b := TagHeaderBytes(tag);
    var low := tag.timestamp % 0x100_0000;
    Be24RoundTrip(tag.size);
    Be24RoundTrip(low);
    Be24RoundTrip(tag.streamId);
    hide TagHeaderBytes, Be24, Read24, Read32;
    TimeRead(b[7], b[4..7], tag.timestamp);
    assert [b[7]] + b[4..7] == [b[7], b[4], b[5], b[6]];
  }

  lemma {:induction false} TagParts(tag: Tag)
    requires KnownKind(tag.kind) && tag.filter < 2 && tag.timestamp < POW32
    requires tag.size < 0x100_0000 && tag.streamId < 0x100_0000
    ensures var b := TagHeaderBytes(tag);
      && |b| == TAG_HEADER_SIZE && b[0] % 32 == tag.kind && b[0] / 32 % 2 == tag.filter
      && b[1..4] == Be24(tag.size) && b[4..7] == Be24(tag.timestamp % 0x100_0000)
      && b[7] == tag.timestamp / 0x100_0000 && b[8..11] == Be24(tag.streamId)
  {
    hide Be24;
  }

  lemma {:induction false} TimeRead(top: byte, low: bytes, v: nat)
    requires v < POW32 && top as nat == v / 0x100_0000 && |low| == 3 && Read24(low) == v % 0x100_0000
    ensures Read32([top] + low) == v
  {
  }

  // A video header reads back as written; formats without packet type keep what the reader had.
  lemma {:induction false} VideoHeadRead(v: VideoHead, prior: VideoHead)
    requires VideoFields(v)
    ensures var b := VideoHeadBytes(v);
      && |b| == (if VideoHasPacket(v.codec) then 5 else 1) && b[0] % 16 == v.codec
      && ReadVideoHead(prior, b) == if VideoHasPacket(v.codec) then v else prior.(codec := v.codec, keyframe := v.keyframe)
  {
    if VideoHasPacket(v.codec) {
      assert VideoHeadBytes(v)[2..5] == Be24(v.cts % 0x100_0000);
      Be24RoundTrip(v.cts % 0x100_0000);
    }
  }

  lemma {:induction false} AudioHeadRead(a: AudioHead, prior: AudioHead)
    requires AudioFields(a)
    ensures var b := AudioHeadBytes(a);
      && |b| == (if AudioHasPacket(a.codec) then 2 else 1) && b[0] / 16 * 16 == a.codec
      && ReadAudioHead(prior, b) == if AudioHasPacket(a.codec) then AudioHead(a.codec, 3, 1, 1, a.packet)
                                    else a.(packet := prior.packet)
  {
    var n, low := a.codec / 16, a.rate * 4 + a.bits * 2 + a.channels;
    assert a.codec == n * 16 && (n * 16 + low) / 16 == n;
    assert (n * 16 + low) / 4 == n * 4 + a.rate && (n * 16 + low) / 2 == n * 8 + a.rate * 2 + a.bits;
  }

  lemma {:induction false} ModAdd(a: int, b: int)
    ensures (a % POW32 + b) % POW32 == (a + b) % POW32
  {
  }

  // The headers in front of the payload, from the end of the tag header on.
  lemma {:induction false} FeedScriptHead(u: User, p: Parser, m: Media, rest: bytes, log: seq<Event>) returns (q: Parser)
    requires Writable(m) && m.Script? && p.phase.Codec? && p.got == [] && rest != []
    requires p.tag == TagOf(m) && u.alloc(|m.payload|)
    ensures BodyNext(p, m, q) && Feed(u, p, MediaHead(m) + rest, log) == Feed(u, q, rest, log)
  {
    hide Feed, Step;
    assert [] + rest == rest && TagBody(m) == m.payload;
    FeedExact(u, p, [], rest, log);
    assert p.(got := p.got + []) == p;
    var p1 := p.(want := 0, phase := Extra);
    FeedExact(u, p1, [], rest, log);
    assert p1.(got := p1.got + []) == p1;
    q := p1.(got := [], phase := Body, want := |m.payload|);
  }

  lemma {:induction false} FeedSoundHead(u: User, p: Parser, m: Media, rest: bytes, log: seq<Event>) returns (q: Parser)
    requires Writable(m) && m.Sound? && p.phase.Codec? && p.got == []
    requires p.tag == TagOf(m) && u.alloc(|m.payload|)
    ensures BodyNext(p, m, q) && Feed(u, p, MediaHead(m) + rest, log) == Feed(u, q, rest, log)
  {
    hide Feed, Step;
    var head := MediaHead(m);
    AudioHeadRead(AudioHead(m.codec, 3, 1, 1, m.packet), p.audio);
    FeedExact(u, p, head[..1], head[1..] + rest, log);
    assert head[..1] + (head[1..] + rest) == head + rest && [] + head[..1] == head[..1];
    var p1 := p.(got := head[..1], want := 2, phase := Extra);
    FeedExact(u, p1, head[1..], rest, log);
    assert head[..1] + head[1..] == head;
    q := p1.(got := [], phase := Body, want := |m.payload|, audio := ReadAudioHead(p.audio, head));
  }

  // The rest of a video header, all of whose bytes are there.
  lemma {:induction false} PictureHeadEnds(u: User, p: Parser, m: Media, log: seq<Event>) returns (q: Parser)
    requires Writable(m) && m.Picture? && p.phase.Extra? && Sane(p) && p.got == MediaHead(m) && |p.got| == p.want
    requires p.tag == TagOf(m) && u.alloc(|m.payload|)
    ensures BodyNext(p, m, q) && Finish(u, p, log) == Outcome(q, log, 0)
  {
    VideoHeadRead(VideoHead(m.codec, m.keyframe, m.packet, m.cts), p.video);
    q := p.(got := [], phase := Body, want := |m.payload|, video := VideoHead(m.codec, m.keyframe, m.packet, m.cts));
  }

  lemma {:induction false} FeedPictureHead(u: User, p: Parser, m: Media, rest: bytes, log: seq<Event>) returns (q: Parser)
    requires Writable(m) && m.Picture? && p.phase.Codec? && p.got == []
    requires p.tag == TagOf(m) && u.alloc(|m.payload|)
    ensures BodyNext(p, m, q) && Feed(u, p, MediaHead(m) + rest, log) == Feed(u, q, rest, log)
  {
    var head := MediaHead(m);
    VideoHeadRead(VideoHead(m.codec, m.keyframe, m.packet, m.cts), p.video);
    assert |head| == 5 && VideoHasPacket(head[0] % 16);
    hide Feed, Step, ReadVideoHead, VideoHeadBytes, MediaHead, TagBody, BodyNext;
    assert head[..1] + (head[1..] + rest) == head + rest && [] + head[..1] == head[..1];
    FeedExact(u, p, head[..1], head[1..] + rest, log);
    var p1 := p.(got := head[..1], want := 5, phase := Extra);
    hide Finish;
    assert head[..1] + head[1..] == head;
    FeedExact(u, p1, head[1..], rest, log);
    q := PictureHeadEnds(u, p1.(got := head), m, log);
  }

  lemma {:induction false} FeedHead(u: User, p: Parser, m: Media, rest: bytes, log: seq<Event>) returns (q: Parser)
    requires Writable(m) && p.phase.Codec? && p.got == [] && (m.Script? ==> rest != [])
    requires p.tag == TagOf(m) && u.alloc(|m.payload|)
    ensures BodyNext(p, m, q) && Feed(u, p, MediaHead(m) + rest, log) == Feed(u, q, rest, log)
  {
    hide Feed, Sane, MediaHead, BodyNext;
    match m
    case Script(_, _) => q := FeedScriptHead(u, p, m, rest, log);
    case Sound(_, _, _, _) => q := FeedSoundHead(u, p, m, rest, log);
    case Picture(_, _, _, _, _, _) => q := FeedPictureHead(u, p, m, rest, log);
  }

  // The parser before the payload of `m`: the headers were read as written.
  predicate BodyNext(p: Parser, m: Media, q: Parser)
    requires Writable(m)
  {
    && q.phase.Body? && q.got == [] && q.want == |m.payload| && q.tag == p.tag
    && q.audio == (if m.Sound? then AudioHead(m.codec, 3, 1, 1, m.packet) else p.audio)
    && (m.Picture? ==> q.video == VideoHead(m.codec, m.keyframe, m.packet, m.cts))
  }

  lemma {:induction false} DispatchTells(p: Parser, m: Media, q: Parser)
    requires Writable(m) && BodyNext(p, m, q) && q.tag.kind == Kind(m) && q.tag.timestamp == m.ts % POW32
    ensures match DispatchTag(q, m.payload)
            case Call(e) => Told(m) == [e]
            case Done(r) => Told(m) == [] && r == 0
  {
    if m.Picture? { ModAdd(m.ts, m.cts); }
  }

  // A tag header and its body, with more behind: the callback, and the parser ready for the tag size.
  lemma {:induction false} FeedBare(u: User, p: Parser, m: Media, rest: bytes, log: seq<Event>) returns (q: Parser)
    requires Writable(m) && p.phase.TagHead? && p.got == [] && rest != []
    requires u.alloc(|m.payload|) && Accepting(u, log, Told(m))
    ensures q.phase.PreviousSize? && q.got == [] && q.audio.packet == (if m.Sound? then m.packet else p.audio.packet)
    ensures Feed(u, p, TagHeaderBytes(TagOf(m)) + (TagBody(m) + rest), log)
         == Feed(u, q, rest, log + Told(m))
  {
    hide Feed, Step, Told, MediaHead, TagHeaderBytes;
    var x := TagHeaderBytes(TagOf(m));
    var tail := m.payload + rest;
    assert TagBody(m) + rest == MediaHead(m) + tail;
    TagRead(TagOf(m), p.tag);
    FeedExact(u, p, x, MediaHead(m) + tail, log);
    assert [] + x == x;
    var p1 := p.(tag := TagOf(m), got := [], want := 0, phase := Codec);
    var p2 := FeedHead(u, p1, m, tail, log);
    FeedExact(u, p2, m.payload, rest, log);
    assert [] + m.payload == m.payload;
    DispatchTells(p1, m, p2);
    assert log + [] == log;
    q := p2.(got := [], phase := PreviousSize);
  }

  lemma {:induction false} FeedSize(u: User, p: Parser, size: nat, rest: bytes, log: seq<Event>) returns (q: Parser)
    requires p.phase.PreviousSize? && p.got == [] && size < POW32
    ensures q.phase.TagHead? && q.got == [] && Feed(u, p, Be32(size) + rest, log) == Feed(u, q, rest, log)
    ensures q.header == p.header && q.audio == p.audio
  {
    FeedExact(u, p, Be32(size), rest, log);
    q := p.(got := [], phase := TagHead);
  }

  // One written tag: its callback, and the parser ready for the next tag.
  lemma {:induction false} FeedTag(u: User, p: Parser, m: Media, rest: bytes, log: seq<Event>) returns (q: Parser)
    requires Writable(m) && p.phase.TagHead? && p.got == [] && u.alloc(|m.payload|) && Accepting(u, log, Told(m))
    ensures q.phase.TagHead? && q.got == [] && q.audio.packet == (if m.Sound? then m.packet else p.audio.packet)
    ensures Feed(u, p, TagData(Kind(m), TagBody(m), m.ts) + rest, log) == Feed(u, q, rest, log + Told(m))
  {
    hide Feed, Told, TagBody, TagHeaderBytes, Accepting;
    var size := Be32((TAG_HEADER_SIZE + |TagBody(m)|) % POW32);
    var x := TagHeaderBytes(TagOf(m));
    assert TagData(Kind(m), TagBody(m), m.ts) + rest == x + (TagBody(m) + (size + rest));
    var p1 := FeedBare(u, p, m, size + rest, log);
    q := FeedSize(u, p1, (TAG_HEADER_SIZE + |TagBody(m)|) % POW32, rest, log + Told(m));
  }

  lemma {:induction false} AcceptingSplit(u: User, log: seq<Event>, a: seq<Event>, b: seq<Event>)
    requires Accepting(u, log, a + b)
    ensures Accepting(u, log, a) && Accepting(u, log + a, b)
    decreases |a|
  {
    if a == [] {
      assert a + b == b && log + a == log;
    } else {
      assert (a + b)[1..] == a[1..] + b;
      AcceptingSplit(u, log + [a[0]], a[1..], b);
      assert log + [a[0]] + a[1..] == log + a;
    }
  }

  lemma {:induction false} Unfold(u: User, ms: seq<Media>)
    requires ms != [] && AllWritable(ms) && Allocatable(u, ms)
    ensures var (m, rest) := (ms[0], ms[1..]);
      && Writable(m) && u.alloc(|m.payload|) && AllWritable(rest) && Allocatable(u, rest)
      && Tags(ms) == TagData(Kind(m), TagBody(m), m.ts) + Tags(rest)
      && AllTold(ms) == Told(m) + AllTold(rest)
  {
    hide TagData, Told, Writable;
  }

  lemma {:induction false} FeedNone(u: User, p: Parser, log: seq<Event>)
    requires Sane(p)
    ensures Feed(u, p, [], log) == Outcome(p, log, 0)
  {
  }

  lemma {:induction false} FeedTags(u: User, p: Parser, ms: seq<Media>, log: seq<Event>)
    requires p.phase.TagHead? && p.got == []
    requires AllWritable(ms) && Allocatable(u, ms) && Accepting(u, log, AllTold(ms))
    ensures var r := Feed(u, p, Tags(ms), log);
      r.log == log + AllTold(ms) && r.result == 0 && r.p.phase.TagHead? && r.p.got == []
    decreases |ms|
  {
    hide Feed, TagData, TagBody, Told, Accepting, Writable, Allocatable, AllWritable;
    if ms == [] {
      assert log + [] == log;
      FeedNone(u, p, log);
    } else {
      hide Tags, AllTold;
      var m, rest := ms[0], ms[1..];
      Unfold(u, ms);
      AcceptingSplit(u, log, Told(m), AllTold(rest));
      var q := FeedTag(u, p, m, Tags(rest), log);
      FeedTags(u, q, rest, log + Told(m));
      assert log + Told(m) + AllTold(rest) == log + AllTold(ms);
    }
  }

  lemma {:induction false} UnfoldStandard(u: User, ts: seq<Sized>, rest: bytes)
    requires ts != [] && AllStandard(ts) && Allocatable(u, Medias(ts))
    ensures var (m, more) := (ts[0].media, ts[1..]);
      && Writable(m) && u.alloc(|m.payload|) && ts[0].previous < POW32 && AllStandard(more) && Allocatable(u, Medias(more))
      && StandardTags(ts) + rest == Be32(ts[0].previous)
         + (TagHeaderBytes(TagOf(m)) + (TagBody(m) + (StandardTags(more) + rest)))
      && AllTold(Medias(ts)) == Told(m) + AllTold(Medias(more))
  {
    hide TagHeaderBytes, TagBody, Told, Writable;
    assert Medias(ts)[1..] == Medias(ts[1..]);
  }

  // Whatever tag sizes stand between the tags.
  lemma {:induction false} FeedStandardTags(u: User, p: Parser, ts: seq<Sized>, rest: bytes, log: seq<Event>) returns (q: Parser)
    requires p.phase.PreviousSize? && p.got == [] && rest != []
    requires AllStandard(ts) && Allocatable(u, Medias(ts)) && Accepting(u, log, AllTold(Medias(ts)))
    ensures q.phase.PreviousSize? && q.got == []
    ensures Feed(u, p, StandardTags(ts) + rest, log) == Feed(u, q, rest, log + AllTold(Medias(ts)))
    decreases |ts|
  {
    hide Feed, TagHeaderBytes, TagBody, Told, Accepting, Writable, Allocatable, AllTold;
    if ts == [] {
      ToldNone();
      assert log + [] == log && [] + rest == rest;
      q := p;
    } else {
      hide StandardTags, Medias, AllStandard;
      var m, more := ts[0].media, ts[1..];
      UnfoldStandard(u, ts, rest);
      AcceptingSplit(u, log, Told(m), AllTold(Medias(more)));
      var tail := StandardTags(more) + rest;
      var x := TagHeaderBytes(TagOf(m));
      var p1 := FeedSize(u, p, ts[0].previous, x + (TagBody(m) + tail), log);
      var p2 := FeedBare(u, p1, m, tail, log);
      q := FeedStandardTags(u, p2, more, rest, log + Told(m));
      assert log + Told(m) + AllTold(Medias(more)) == log + AllTold(Medias(ts));
    }
  }

  lemma {:induction false} ToldNone()
    ensures AllTold([]) == []
  {
  }

  lemma {:induction false} FeedHeader(u: User, audio: bool, video: bool, rest: bytes) returns (q: Parser)
    ensures q.phase.PreviousSize? && q.got == []
    ensures Feed(u, FRESH, HeaderBytes(audio, video) + rest, []) == Feed(u, q, rest, [])
    ensures q.header == Header(1, if audio then 1 else 0, if video then 1 else 0, 0) && q.audio == FRESH.audio
  {
    hide Feed, Step, ReadHeader, HeaderBytes;
    var b := HeaderBytes(audio, video);
    HeaderRead(audio, video, FRESH.header);
    FeedExact(u, FRESH, b, rest, []);
    assert [] + b == b;
    q := FRESH.(header := Header(1, if audio then 1 else 0, if video then 1 else 0, 0), got := [], phase := PreviousSize);
  }

  // A written stream parses back to exactly what was written: one callback for each tag, with its payload, codec,
  // 32-bit timestamps, keyframe flag and composition time.
  lemma {:induction false} StreamParsesBack(u: User, audio: bool, video: bool, ms: seq<Media>)
    requires AllWritable(ms) && Allocatable(u, ms) && Accepting(u, [], AllTold(ms))
    ensures var r := Feed(u, FRESH, Stream(audio, video, ms), []);
      && r.log == AllTold(ms) && r.result == 0
      && r.p.phase.TagHead? && r.p.got == []
      && r.p.header == Header(1, if audio then 1 else 0, if video then 1 else 0, 0)
  {
    hide Feed, AllTold, Tags, HeaderBytes;
    assert Stream(audio, video, ms) == HeaderBytes(audio, video) + (Be32(0) + Tags(ms));
    var p := FeedHeader(u, audio, video, Be32(0) + Tags(ms));
    var q := FeedSize(u, p, 0, Tags(ms), []);
    FeedTags(u, q, ms, []);
    FeedKeepsHeader(u, q, Tags(ms), []);
    assert [] + AllTold(ms) == AllTold(ms);
  }

  // A tag header and its body at the end of the data: the callback comes exactly when there is a payload, for a parser
  // that waits for an empty one takes no step before the next byte.
  lemma {:induction false} FeedLast(u: User, p: Parser, m: Media, log: seq<Event>)
    requires Writable(m) && p.phase.TagHead? && p.got == [] && u.alloc(|m.payload|) && Accepting(u, log, Told(m))
    ensures var r := Feed(u, p, TagHeaderBytes(TagOf(m)) + TagBody(m), log);
      r.result == 0 && r.log == if m.payload == [] then log else log + Told(m)
  {
    hide Feed, Step, Told, MediaHead, TagHeaderBytes;
    var x := TagHeaderBytes(TagOf(m));
    TagRead(TagOf(m), p.tag);
    FeedExact(u, p, x, TagBody(m), log);
    assert [] + x == x;
    var p1 := p.(tag := TagOf(m), got := [], want := 0, phase := Codec);
    if m.Script? && m.payload == [] {
      NoBody(m);
      FeedNone(u, p1, log);
    } else {
      var p2 := FeedHead(u, p1, m, m.payload, log);
      if m.payload == [] {
        FeedNone(u, p2, log);
      } else {
        assert m.payload + [] == m.payload == [] + m.payload && log + [] == log;
        FeedExact(u, p2, m.payload, [], log);
        DispatchTells(p1, m, p2);
        FeedNone(u, p2.(got := [], phase := PreviousSize), log + Told(m));
      }
    }
  }

  lemma {:induction false} NoBody(m: Media)
    requires Writable(m) && m.Script? && m.payload == []
    ensures TagBody(m) == []
  {
  }

  lemma {:induction false} LastWritable(ts: seq<Sized>)
    requires AllStandard(ts) && ts != []
    ensures Writable(ts[|ts| - 1].media)
    decreases |ts|
  {
    if |ts| > 1 { LastWritable(ts[1..]); }
  }

  function LastTold(ts: seq<Sized>): seq<Event>
    requires AllStandard(ts) && ts != []
  {
    LastWritable(ts);
    Told(ts[|ts| - 1].media)
  }

  lemma {:induction false} SameLast(ts: seq<Sized>)
    requires AllStandard(ts) && |ts| > 1
    ensures AllStandard(ts[1..]) && ts[1..][|ts| - 2] == ts[|ts| - 1] && LastTold(ts[1..]) == LastTold(ts)
  {
    hide Told, Writable;
  }

  lemma {:induction false} OneTold(ts: seq<Sized>)
    requires AllStandard(ts) && |ts| == 1
    ensures LastTold(ts) == Told(ts[0].media)
  {
    hide Told, Writable;
  }

  // A written tag behind a tag size, with more behind it or nothing.
  lemma {:induction false} FeedBehind(u: User, p: Parser, size: nat, m: Media, rest: bytes, log: seq<Event>)
    returns (q: Parser)
    requires p.phase.PreviousSize? && p.got == [] && size < POW32 && rest != []
    requires Writable(m) && u.alloc(|m.payload|) && Accepting(u, log, Told(m))
    ensures q.phase.PreviousSize? && q.got == []
    ensures Feed(u, p, Be32(size) + (TagHeaderBytes(TagOf(m)) + (TagBody(m) + rest)), log) == Feed(u, q, rest, log + Told(m))
  {
    hide Feed, TagHeaderBytes, TagBody, Told, Accepting;
    var p1 := FeedSize(u, p, size, TagHeaderBytes(TagOf(m)) + (TagBody(m) + rest), log);
    q := FeedBare(u, p1, m, rest, log);
  }

  lemma {:induction false} FeedAtEnd(u: User, p: Parser, size: nat, m: Media, log: seq<Event>)
    requires p.phase.PreviousSize? && p.got == [] && size < POW32
    requires Writable(m) && u.alloc(|m.payload|) && Accepting(u, log, Told(m))
    ensures var r := Feed(u, p, Be32(size) + (TagHeaderBytes(TagOf(m)) + (TagBody(m) + [])), log);
      r.result == 0 && r.log == if m.payload == [] then log else log + Told(m)
  {
    hide Feed, TagHeaderBytes, TagBody, Told, Accepting;
    assert TagBody(m) + [] == TagBody(m);
    var p1 := FeedSize(u, p, size, TagHeaderBytes(TagOf(m)) + TagBody(m), log);
    FeedLast(u, p1, m, log);
  }

  // What a parser that waits for a tag size is told by tags with nothing behind them.
  lemma {:induction false} FeedToEnd(u: User, p: Parser, ts: seq<Sized>, log: seq<Event>)
    requires p.phase.PreviousSize? && p.got == [] && ts != []
    requires AllStandard(ts) && Allocatable(u, Medias(ts)) && Accepting(u, log, AllTold(Medias(ts)))
    ensures var r, last := Feed(u, p, StandardTags(ts), log), ts[|ts| - 1].media;
      && r.result == 0
      && (if last.payload == [] then r.log + LastTold(ts) == log + AllTold(Medias(ts)) else r.log == log + AllTold(Medias(ts)))
    decreases |ts|
  {
    hide *;
    var m, more := ts[0].media, ts[1..];
    UnfoldStandard(u, ts, []);
    AcceptingSplit(u, log, Told(m), AllTold(Medias(more)));
    var told, tail := AllTold(Medias(more)), StandardTags(more);
    assert StandardTags(ts) + [] == StandardTags(ts) && tail + [] == tail;
    if more == [] {
      NoTags();
      OneTold(ts);
      assert log + (Told(m) + []) == log + Told(m);
      FeedAtEnd(u, p, ts[0].previous, m, log);
    } else {
      TagsBegin(more);
      var p2 := FeedBehind(u, p, ts[0].previous, m, tail, log);
      FeedToEnd(u, p2, more, log + Told(m));
      SameLast(ts);
      assert log + Told(m) + told == log + (Told(m) + told);
    }
  }

  lemma {:induction false} NoTags()
    ensures StandardTags([]) == [] && Medias([]) == [] && AllTold([]) == []
  {
  }

  lemma {:induction false} TagsBegin(ts: seq<Sized>)
    requires AllStandard(ts) && ts != []
    ensures StandardTags(ts) != []
  {
  }

  // So does a stream in the other form, whatever tag sizes were given and whatever part of a tag size follows, except
  // exactly when nothing follows a last tag that has no payload and yet is to be told of: its callback is missing then.
  lemma {:induction false} StandardStreamParsesBack(u: User, audio: bool, video: bool, ts: seq<Sized>, rest: bytes)
    requires AllStandard(ts) && Allocatable(u, Medias(ts))
    requires Accepting(u, [], AllTold(Medias(ts))) && |rest| < TAG_SIZE
    ensures var r := Feed(u, FRESH, HeaderBytes(audio, video) + StandardTags(ts) + rest, []);
      && r.result == 0
      && (rest != [] ==> r.log == AllTold(Medias(ts)) && r.p.phase.PreviousSize? && r.p.got == rest)
      && (r.log == AllTold(Medias(ts)) <==>
          rest != [] || ts == [] || ts[|ts| - 1].media.payload != [] || LastTold(ts) == [])
      && (rest == [] && ts != [] && ts[|ts| - 1].media.payload == [] ==>
          r.log + LastTold(ts) == AllTold(Medias(ts)))
  {
    hide AllTold, HeaderBytes, StandardTags, Told;
    var tags := StandardTags(ts);
    assert HeaderBytes(audio, video) + tags + rest == HeaderBytes(audio, video) + (tags + rest);
    var p := FeedHeader(u, audio, video, tags + rest);
    assert [] + AllTold(Medias(ts)) == AllTold(Medias(ts));
    if rest != [] {
      var q := FeedStandardTags(u, p, ts, rest, []);
      assert rest[..|rest|] == rest && rest[|rest|..] == [] && [] + rest == rest;
    } else if ts == [] {
      NoTags();
      FeedNone(u, p, []);
    } else {
      assert tags + [] == tags;
      FeedToEnd(u, p, ts, []);
    }
  }

  // For one audio tag without payload the handler is not called.
  lemma {:induction false} EmptyTagUntold()
    ensures
      var u, m := User(log => 0, n => true), Sound(0, AUDIO_AAC, AVPACKET, []);
      && Feed(u, FRESH, HeaderBytes(true, false) + StandardTags([Sized(m, 0)]), []).log == []
      && Told(m) == [Event(AUDIO_AAC, [], 0, 0, 0)]
  {
    var u, m := User(log => 0, n => true), Sound(0, AUDIO_AAC, AVPACKET, []);
    var ts := [Sized(m, 0)];
    hide HeaderBytes, StandardTags, Feed;
    assert ts[1..] == [] && Medias(ts)[1..] == [];
    assert HeaderBytes(true, false) + StandardTags(ts) + [] == HeaderBytes(true, false) + StandardTags(ts);
    StandardStreamParsesBack(u, true, false, ts, []);
  }

  lemma {:induction false} FeedKeepsHeader(u: User, p: Parser, data: bytes, log: seq<Event>)
    requires Sane(p) && !p.phase.Head?
    ensures Feed(u, p, data, log).p.header == p.header
    decreases |data|, Rank(p.phase)
  {
    if data != [] {
      StepSane(u, p, data, log);
      var s := Step(u, p, data, log);
      if s.result == 0 { FeedKeepsHeader(u, s.p, data[Taken(p, data)..], s.log); }
    }
  }

  // ---------------------------------------------------------------------------
  // Chunks

  function Joined(chunks: seq<bytes>): bytes { if chunks == [] then [] else chunks[0] + Joined(chunks[1..]) }

  // Feeding chunk after chunk, until the first error.
  function FeedAll(u: User, p: Parser, chunks: seq<bytes>, log: seq<Event>): Outcome
    requires Sane(p)
    decreases |chunks|
  {
    if chunks == [] then Outcome(p, log, 0)
    else
      var r := Feed(u, p, chunks[0], log);
      if r.result != 0 then r else FeedAll(u, r.p, chunks[1..], r.log)
  }

  lemma {:induction false} ChunksDoNotMatter(u: User, p: Parser, chunks: seq<bytes>, log: seq<Event>)
    requires Sane(p)
    ensures FeedAll(u, p, chunks, log) == Feed(u, p, Joined(chunks), log)
    decreases |chunks|
  {
    hide Step;
    if chunks != [] {
      FeedConcat(u, p, chunks[0], Joined(chunks[1..]), log);
      var r := Feed(u, p, chunks[0], log);
      if r.result == 0 { ChunksDoNotMatter(u, r.p, chunks[1..], r.log); }
    }
  }

  // Hence a written stream parses back however it is cut up on the way.
  lemma {:induction false} ChunkedStreamParsesBack(
    u: User, audio: bool, video: bool, ms: seq<Media>, chunks: seq<bytes>)
    requires AllWritable(ms) && Allocatable(u, ms)
    requires Accepting(u, [], AllTold(ms)) && Joined(chunks) == Stream(audio, video, ms)
    ensures var r := FeedAll(u, FRESH, chunks, []); r.log == AllTold(ms) && r.result == 0
  {
    ChunksDoNotMatter(u, FRESH, chunks, []);
    StreamParsesBack(u, audio, video, ms);
  }
}
