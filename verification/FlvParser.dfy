/** The streaming FLV parser as a value. */
module FlvParser {
  import opened Bytes

  const TYPE_AUDIO := 8
  const TYPE_VIDEO := 9
  const TYPE_SCRIPT := 18

  const AUDIO_AAC := 160
  const AUDIO_OPUS := 208
  const AUDIO_ASC := 0x100
  const AUDIO_OPUS_HEAD := 0x101

  const VIDEO_H264 := 7
  const VIDEO_H265 := 12
  const VIDEO_AV1 := 13
  const VIDEO_AVCC := 0x200
  const VIDEO_HVCC := 0x201
  const VIDEO_AV1C := 0x202

  const SCRIPT_METADATA := 0x300

  const SEQUENCE_HEADER := 0
  const AVPACKET := 1
  const END_OF_SEQUENCE := 2

  const MAGIC: bytes := [0x46, 0x4C, 0x56]   // FLV
  const HEADER_SIZE := 9
  const TAG_HEADER_SIZE := 11
  const TAG_SIZE := 4
  const EINVAL := 22

  datatype Header = Header(version: byte, audio: nat, video: nat, offset: nat)
  datatype Tag = Tag(filter: nat, kind: nat, size: nat, timestamp: nat, streamId: nat)
  datatype AudioHead = AudioHead(codec: nat, rate: nat, bits: nat, channels: nat, packet: nat)
  datatype VideoHead = VideoHead(codec: nat, keyframe: nat, packet: nat, cts: int)

  datatype Phase = Head | HeadOffset | PreviousSize | TagHead | Codec | Extra | Body

  // `got` holds the bytes collected for the current phase, in the small buffer or in the tag body.
  datatype Parser = Parser(
    phase: Phase, got: bytes, want: nat, header: Header, tag: Tag, audio: AudioHead, video: VideoHead)

  const FRESH := Parser(Head, [], 0, Header(0, 0, 0, 0), Tag(0, 0, 0, 0, 0), AudioHead(0, 0, 0, 0, 0), VideoHead(0, 0, 0, 0))

  // One callback.
  datatype Event = Event(codec: nat, data: bytes, pts: nat, dts: nat, flags: nat)

  // The user's side: the handler's answer, which may depend on all callbacks so far, and whether a body of a given
  // size can be allocated.
  datatype User = User(handler: seq<Event> -> int, alloc: nat -> bool)

  // ---------------------------------------------------------------------------
  // Reading headers

  function ReadHeader(prior: Header, b: bytes): Header
    requires |b| == HEADER_SIZE
  {
    if b[..3] == MAGIC
    then Header(b[3], b[4] / 4 % 2, b[4] % 2, Read32(b[5..9]))
    else prior
  }

  predicate KnownKind(kind: nat) { kind == TYPE_AUDIO || kind == TYPE_VIDEO || kind == TYPE_SCRIPT }

  function ReadTag(prior: Tag, b: bytes): Tag
    requires |b| == TAG_HEADER_SIZE
  {
    var kind, filter := b[0] % 32, b[0] / 32 % 2;
    if !KnownKind(kind) then prior.(kind := kind, filter := filter)
    else Tag(filter, kind, Read24(b[1..4]), Read32([b[7], b[4], b[5], b[6]]), Read24(b[8..11]))
  }

  predicate AudioHasPacket(codec: nat) { codec == AUDIO_AAC || codec == AUDIO_OPUS }

  predicate VideoHasPacket(codec: nat) { codec == VIDEO_H264 || codec == VIDEO_H265 || codec == VIDEO_AV1 }

  function ReadAudioHead(prior: AudioHead, b: bytes): AudioHead
    requires |b| >= 1 && (AudioHasPacket(b[0] / 16 * 16) ==> |b| >= 2)
  {
    var codec := b[0] / 16 * 16;
    AudioHead(codec, b[0] / 4 % 4, b[0] / 2 % 2, b[0] % 2, if AudioHasPacket(codec) then b[1] else prior.packet)
  }

  function Signed24(u: nat): int { if u >= 0x80_0000 then u - 0x100_0000 else u }

  function ReadVideoHead(prior: VideoHead, b: bytes): VideoHead
    requires |b| >= 1 && (VideoHasPacket(b[0] % 16) ==> |b| >= 5)
  {
    var codec := b[0] % 16;
    if VideoHasPacket(codec) then VideoHead(codec, b[0] / 16, b[1], Signed24(Read24(b[2..5])))
    else VideoHead(codec, b[0] / 16, prior.packet, prior.cts)
  }

  // ---------------------------------------------------------------------------
  // Dispatch of a complete tag

  datatype Dispatch = Call(event: Event) | Done(result: int)

  function DispatchAudio(a: AudioHead, body: bytes, ts: nat): Dispatch {
    if a.packet == SEQUENCE_HEADER
    then Call(Event(if a.codec == AUDIO_AAC then AUDIO_ASC else AUDIO_OPUS_HEAD, body, ts, ts, 0))
    else Call(Event(a.codec, body, ts, ts, 0))
  }

  function ConfigCodec(codec: nat): nat {
    if codec == VIDEO_H264 then VIDEO_AVCC else if codec == VIDEO_H265 then VIDEO_HVCC else VIDEO_AV1C
  }

  function DispatchVideo(v: VideoHead, body: bytes, ts: nat): Dispatch {
    var flags := if v.keyframe == 1 then 1 else 0;
    if !VideoHasPacket(v.codec) then Call(Event(v.codec, body, ts, ts, flags))
    else if v.packet == SEQUENCE_HEADER then Call(Event(ConfigCodec(v.codec), body, ts, ts, 0))
    else if v.packet == AVPACKET then Call(Event(v.codec, body, (ts + v.cts) % POW32, ts, flags))
    else if v.packet == END_OF_SEQUENCE then Done(0)
    else Done(-EINVAL)
  }

  function DispatchTag(p: Parser, body: bytes): Dispatch {
    if p.tag.kind == TYPE_AUDIO then DispatchAudio(p.audio, body, p.tag.timestamp)
    else if p.tag.kind == TYPE_VIDEO then DispatchVideo(p.video, body, p.tag.timestamp)
    else if p.tag.kind == TYPE_SCRIPT then Call(Event(SCRIPT_METADATA, body, p.tag.timestamp, p.tag.timestamp, 0))
    else Done(-1)
  }

  // ---------------------------------------------------------------------------
  // The state machine

  // How many bytes the current phase still waits for.
  function Needed(p: Parser): nat
    requires Sane(p)
  {
    match p.phase
    case Head => HEADER_SIZE - |p.got|
    case HeadOffset => p.header.offset - |p.got|
    case PreviousSize => TAG_SIZE - |p.got|
    case TagHead => TAG_HEADER_SIZE - |p.got|
    case Codec => if p.tag.kind == TYPE_AUDIO || p.tag.kind == TYPE_VIDEO then 1 else 0
    case Extra => p.want - |p.got|
    case Body => p.want - |p.got|
  }

  // What holds of a parser that was never answered with an error.
  predicate Sane(p: Parser) {
    match p.phase
    case Head => |p.got| < HEADER_SIZE
    case HeadOffset => |p.got| < p.header.offset <= 23
    case PreviousSize => |p.got| < TAG_SIZE
    case TagHead => |p.got| < TAG_HEADER_SIZE
    case Codec => p.got == []
    case Extra =>
      && |p.got| <= p.want
      && (if p.tag.kind == TYPE_AUDIO then
            p.got != [] && p.want == if AudioHasPacket(p.got[0] / 16 * 16) then 2 else 1
          else if p.tag.kind == TYPE_VIDEO then
            p.got != [] && p.want == if VideoHasPacket(p.got[0] % 16) then 5 else 1
          else p.tag.kind == TYPE_SCRIPT && p.want == 0)
    case Body => KnownKind(p.tag.kind) && (|p.got| < p.want || p.want == 0 == |p.got|)
  }

  // A step: the parser, the callbacks so far, and 0 or what the input function returns.
  datatype Outcome = Outcome(p: Parser, log: seq<Event>, result: int)

  // The current phase has all its bytes.
  function Finish(u: User, p: Parser, log: seq<Event>): Outcome
    requires p.phase.Head? ==> |p.got| == HEADER_SIZE
    requires p.phase.TagHead? ==> |p.got| == TAG_HEADER_SIZE
    requires p.phase.Codec? ==> p.tag.kind == TYPE_AUDIO || p.tag.kind == TYPE_VIDEO ==> |p.got| == 1
    requires p.phase.Extra? ==> Sane(p) && |p.got| == p.want
  {
    match p.phase
    case Head =>
      var header := ReadHeader(p.header, p.got);
      if header.offset < HEADER_SIZE || header.offset > 32 then Outcome(p.(header := header), log, -1)
      else
        var offset := header.offset - HEADER_SIZE;
        Outcome(p.(header := header.(offset := offset), got := [],
                   phase := if offset > 0 then HeadOffset else PreviousSize), log, 0)
    case HeadOffset => Outcome(p.(got := [], phase := PreviousSize), log, 0)
    case PreviousSize => Outcome(p.(got := [], phase := TagHead), log, 0)
    case TagHead => Outcome(p.(tag := ReadTag(p.tag, p.got), got := [], want := 0, phase := Codec), log, 0)
    case Codec =>
      if p.tag.kind == TYPE_AUDIO then
        Outcome(p.(want := if AudioHasPacket(p.got[0] / 16 * 16) then 2 else 1, phase := Extra), log, 0)
      else if p.tag.kind == TYPE_VIDEO then
        Outcome(p.(want := if VideoHasPacket(p.got[0] % 16) then 5 else 1, phase := Extra), log, 0)
      else if p.tag.kind == TYPE_SCRIPT then Outcome(p.(want := 0, phase := Extra), log, 0)
      else Outcome(p, log, -1)
    case Extra =>
      var q := if p.tag.kind == TYPE_AUDIO then p.(audio := ReadAudioHead(p.audio, p.got))
               else if p.tag.kind == TYPE_VIDEO then p.(video := ReadVideoHead(p.video, p.got))
               else p;
      // the size of the body is computed in 64 bits and wraps
      var size := (p.tag.size - p.want) % POW64;
      Outcome(q.(got := [], phase := Body, want := size), log, if u.alloc(size) then 0 else -1)
    case Body =>
      var q := p.(got := [], phase := PreviousSize);
      match DispatchTag(p, p.got)
      case Done(r) => Outcome(q, log, r)
      case Call(e) => Outcome(q, log + [e], u.handler(log + [e]))
  }

  // Take what the phase needs, or all there is.
  function Taken(p: Parser, data: bytes): nat
    requires Sane(p)
  {
    if |data| >= Needed(p) then Needed(p) else |data|
  }

  function Step(u: User, p: Parser, data: bytes, log: seq<Event>): Outcome
    requires Sane(p) && data != []
  {
    var q := p.(got := p.got + data[..Taken(p, data)]);
    if |data| >= Needed(p) then Finish(u, q, log) else Outcome(q, log, 0)
  }

  function Rank(phase: Phase): nat {
    match phase case Codec => 3 case Extra => 2 case Body => 1 case _ => 0
  }

  lemma {:induction false} StepSane(u: User, p: Parser, data: bytes, log: seq<Event>)
    requires Sane(p) && data != []
    ensures Step(u, p, data, log).result == 0 ==> Sane(Step(u, p, data, log).p)
    ensures Taken(p, data) == 0 ==>
      Step(u, p, data, log).result != 0 || Rank(Step(u, p, data, log).p.phase) < Rank(p.phase)
  {
  }

  function Feed(u: User, p: Parser, data: bytes, log: seq<Event>): (r: Outcome)
    requires Sane(p)
    ensures r.result == 0 ==> Sane(r.p)
    decreases |data|, Rank(p.phase)
  {
    if data == [] then Outcome(p, log, 0)
    else
      StepSane(u, p, data, log);
      var s := Step(u, p, data, log);
      if s.result != 0 then s else Feed(u, s.p, data[Taken(p, data)..], s.log)
  }

  // ---------------------------------------------------------------------------
  // Chunking does not matter

  lemma {:induction false} StepWithin(u: User, p: Parser, a: bytes, b: bytes, log: seq<Event>)
    requires Sane(p) && a != [] && Needed(p) <= |a|
    ensures Step(u, p, a + b, log) == Step(u, p, a, log) && Taken(p, a + b) == Taken(p, a)
  {
    assert (a + b)[..Needed(p)] == a[..Needed(p)];
  }

  lemma {:induction false} NeedsLess(p: Parser, a: bytes)
    requires Sane(p) && Needed(p) > |a|
    ensures Sane(p.(got := p.got + a)) && Needed(p.(got := p.got + a)) == Needed(p) - |a|
  {
  }

  lemma {:induction false} StepAcross(u: User, p: Parser, a: bytes, b: bytes, log: seq<Event>)
    requires Sane(p) && a != [] && b != [] && Needed(p) > |a|
    ensures var q := p.(got := p.got + a);
      && Step(u, p, a, log) == Outcome(q, log, 0) && Taken(p, a) == |a| && Sane(q)
      && Step(u, p, a + b, log) == Step(u, q, b, log)
      && Taken(p, a + b) == |a| + Taken(q, b)
  {
    NeedsLess(p, a);
    hide Sane, Needed, Finish;
    var q := p.(got := p.got + a);
    assert a[..|a|] == a;
    var n := Taken(q, b);
    assert (a + b)[..|a| + n] == a + b[..n];
    assert p.got + (a + b[..n]) == (p.got + a) + b[..n];
  }

  // Feeding `a` and then `b` gives the callbacks, the answer and the parser that feeding `a + b` at once gives; after
  // an error in `a`, what follows is not looked at.
  lemma {:induction false} FeedConcat(u: User, p: Parser, a: bytes, b: bytes, log: seq<Event>)
    requires Sane(p)
    ensures var r := Feed(u, p, a, log);
            Feed(u, p, a + b, log) == if r.result != 0 then r else Feed(u, r.p, b, r.log)
    decreases |a|, Rank(p.phase)
  {
    hide Step, Taken, Needed, Sane;
    if a == [] {
      assert a + b == b;
    } else if b == [] {
      assert a + b == a;
    } else {
      StepSane(u, p, a, log);
      StepSane(u, p, a + b, log);
      if Needed(p) <= |a| {
        StepWithin(u, p, a, b, log);
        TakenBound(p, a);
        var s, n := Step(u, p, a, log), Taken(p, a);
        assert (a + b)[n..] == a[n..] + b;
        if s.result == 0 { FeedConcat(u, s.p, a[n..], b, s.log); }
      } else {
        StepAcross(u, p, a, b, log);
        var q := p.(got := p.got + a);
        TakenBound(q, b);
        assert (a + b)[|a| + Taken(q, b)..] == b[Taken(q, b)..];
        assert a[|a|..] == [];
      }
    }
  }

  lemma {:induction false} TakenBound(p: Parser, data: bytes)
    requires Sane(p)
    ensures Taken(p, data) <= |data| && (Needed(p) <= |data| ==> Taken(p, data) == Needed(p))
  {
  }
}
