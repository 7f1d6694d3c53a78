/** Tags of formats that have no packet type of their own. */
module FlvPlain {
  import opened Bytes
  import opened FlvParser
  import opened FlvMux

  // A tag as the muxers write it, or one whose format has no packet type; `first` is the first byte of its body.
  datatype Any =
    | Coded(media: Media)
    | PlainSound(ts: int, first: byte, payload: bytes)
    | PlainPicture(ts: int, first: byte, payload: bytes)

  predicate Fine(a: Any) {
    match a
    case Coded(m) => Writable(m)
    case PlainSound(_, first, payload) => !AudioHasPacket(first / 16 * 16) && |payload| + 1 < 0x100_0000
    case PlainPicture(_, first, payload) => !VideoHasPacket(first % 16) && |payload| + 1 < 0x100_0000
  }

  function Load(a: Any): bytes { if a.Coded? then a.media.payload else a.payload }

  function Body(a: Any): bytes
    requires Fine(a)
  {
    if a.Coded? then TagBody(a.media) else [a.first] + a.payload
  }

  function KindOf(a: Any): nat {
    match a case Coded(m) => Kind(m) case PlainSound(_, _, _) => TYPE_AUDIO case PlainPicture(_, _, _) => TYPE_VIDEO
  }

  function TagBytes(a: Any): bytes
    requires Fine(a)
  {
    TagData(KindOf(a), Body(a), if a.Coded? then a.media.ts else a.ts)
  }

  // What the file says: a plain tag is one frame in the codec it names, and every other tag as the muxer meant it.
  function Meant(a: Any): seq<Event>
    requires Fine(a)
  {
    match a
    case Coded(m) => Told(m)
    case PlainSound(ts, first, payload) => [Event(first / 16 * 16, payload, ts % POW32, ts % POW32, 0)]
    case PlainPicture(ts, first, payload) =>
      [Event(first % 16, payload, ts % POW32, ts % POW32, if first / 16 == 1 then 1 else 0)]
  }

  // What the parser says: plain audio is judged by the packet type that was read last.
  function Said(packet: nat, a: Any): seq<Event>
    requires Fine(a)
  {
    if a.PlainSound? && packet == SEQUENCE_HEADER
    then [Event(AUDIO_OPUS_HEAD, a.payload, a.ts % POW32, a.ts % POW32, 0)]
    else Meant(a)
  }

  function PacketAfter(packet: nat, a: Any): nat { if a.Coded? && a.media.Sound? then a.media.packet else packet }

  lemma {:induction false} BodySize(a: Any)
    requires Fine(a)
    ensures |Body(a)| < 0x100_0000
  {
  }

  function PlainTag(a: Any): Tag
    requires Fine(a) && !a.Coded?
  {
    Tag(0, KindOf(a), 1 + |a.payload|, a.ts % POW32, 0)
  }

  // A plain tag up to its first byte, then that byte, and then the rest up to the trailing size.
  lemma {:induction false} FeedPlainHeader(u: User, p: Parser, a: Any, rest: bytes, log: seq<Event>)
    requires Fine(a) && !a.Coded? && p.phase.TagHead? && p.got == []
    ensures Feed(u, p, TagHeaderBytes(PlainTag(a)) + rest, log)
         == Feed(u, p.(tag := PlainTag(a), got := [], want := 0, phase := Codec), rest, log)
  {
    hide Feed, Step, TagHeaderBytes;
    var x := TagHeaderBytes(PlainTag(a));
    TagRead(PlainTag(a), p.tag);
    FeedExact(u, p, x, rest, log);
    assert [] + x == x;
  }

  lemma {:induction false} FeedFirst(u: User, p: Parser, a: Any, tail: bytes, log: seq<Event>)
    requires Fine(a) && !a.Coded? && p.phase.Codec? && p.got == [] && p.tag == PlainTag(a) && tail != []
    ensures Feed(u, p, [a.first] + tail, log) == Feed(u, p.(got := [a.first], want := 1, phase := Extra), tail, log)
  {
    hide Feed, Step;
    FeedExact(u, p, [a.first], tail, log);
    assert [] + [a.first] == [a.first];
  }

  lemma {:induction false} FeedLoad(u: User, p: Parser, a: Any, rest: bytes, log: seq<Event>) returns (q: Parser)
    requires Fine(a) && !a.Coded? && p.phase.Extra? && p.got == [a.first] && p.want == 1 && p.tag == PlainTag(a)
    requires rest != [] && u.alloc(|a.payload|) && u.handler(log + Said(p.audio.packet, a)) == 0
    ensures q.phase.PreviousSize? && q.got == [] && q.audio.packet == p.audio.packet
    ensures Feed(u, p, a.payload + rest, log) == Feed(u, q, rest, log + Said(p.audio.packet, a))
  {
    hide Feed, Step, Said, DispatchTag;
    FeedExact(u, p, [], a.payload + rest, log);
    assert [] + (a.payload + rest) == a.payload + rest && [a.first] + [] == [a.first];
    var body := PlainBody(u, p, a, log);
    FeedExact(u, body, a.payload, rest, log);
    assert [] + a.payload == a.payload;
    SameDispatch(body, a.payload);
    q := body.(got := [], phase := PreviousSize);
  }

  lemma {:induction false} SameDispatch(p: Parser, body: bytes)
    ensures DispatchTag(p.(got := body), body) == DispatchTag(p, body)
  {
  }

  lemma {:induction false} FeedPlain(u: User, p: Parser, a: Any, rest: bytes, log: seq<Event>) returns (q: Parser)
    requires Fine(a) && !a.Coded? && p.phase.TagHead? && p.got == [] && rest != []
    requires u.alloc(|a.payload|) && u.handler(log + Said(p.audio.packet, a)) == 0
    ensures q.phase.PreviousSize? && q.got == [] && q.audio.packet == p.audio.packet
    ensures Feed(u, p, TagHeaderBytes(PlainTag(a)) + (Body(a) + rest), log)
         == Feed(u, q, rest, log + Said(p.audio.packet, a))
  {
    hide Feed, Step, TagHeaderBytes, Said, Fine;
    var tail := a.payload + rest;
    assert Body(a) + rest == [a.first] + tail;
    FeedPlainHeader(u, p, a, [a.first] + tail, log);
    var p1 := p.(tag := PlainTag(a), got := [], want := 0, phase := Codec);
    FeedFirst(u, p1, a, tail, log);
    q := FeedLoad(u, p1.(got := [a.first], want := 1, phase := Extra), a, rest, log);
  }

  lemma {:induction false} PlainBody(u: User, p: Parser, a: Any, log: seq<Event>) returns (q: Parser)
    requires Fine(a) && !a.Coded? && p.phase.Extra? && p.got == [a.first] && p.want == 1 && Sane(p)
    requires p.tag == PlainTag(a) && u.alloc(|a.payload|)
    ensures Finish(u, p, log) == Outcome(q, log, 0)
    ensures q.phase.Body? && q.got == [] && q.want == |a.payload| && q.tag == p.tag && q.audio.packet == p.audio.packet
    ensures Said(p.audio.packet, a) == match DispatchTag(q, a.payload) case Call(e) => [e] case Done(_) => []
    ensures DispatchTag(q, a.payload).Call?
  {
    q := Finish(u, p, log).p;
  }

  lemma {:induction false} FeedAny(u: User, p: Parser, a: Any, rest: bytes, log: seq<Event>) returns (q: Parser)
    requires Fine(a) && p.phase.TagHead? && p.got == [] && u.alloc(|Load(a)|)
    requires Accepting(u, log, Said(p.audio.packet, a))
    ensures q.phase.TagHead? && q.got == [] && q.audio.packet == PacketAfter(p.audio.packet, a)
    ensures Feed(u, p, TagBytes(a) + rest, log) == Feed(u, q, rest, log + Said(p.audio.packet, a))
  {
    hide Feed, TagHeaderBytes;
    if a.Coded? {
      q := FeedTag(u, p, a.media, rest, log);
    } else {
      BodySize(a);
      var size := Be32((TAG_HEADER_SIZE + |Body(a)|) % POW32);
      assert TagBytes(a) + rest == TagHeaderBytes(PlainTag(a)) + (Body(a) + (size + rest));
      var p1 := FeedPlain(u, p, a, size + rest, log);
      q := FeedSize(u, p1, (TAG_HEADER_SIZE + |Body(a)|) % POW32, rest, log + Said(p.audio.packet, a));
    }
  }

  // ---------------------------------------------------------------------------
  // Whole streams

  predicate AllFine(xs: seq<Any>) { xs == [] || (Fine(xs[0]) && AllFine(xs[1..])) }

  predicate Allocated(u: User, xs: seq<Any>) { xs == [] || (u.alloc(|Load(xs[0])|) && Allocated(u, xs[1..])) }

  function AllBytes(xs: seq<Any>): bytes
    requires AllFine(xs)
  {
    if xs == [] then [] else TagBytes(xs[0]) + AllBytes(xs[1..])
  }

  function AllMeant(xs: seq<Any>): seq<Event>
    requires AllFine(xs)
  {
    if xs == [] then [] else Meant(xs[0]) + AllMeant(xs[1..])
  }

  function AllSaid(packet: nat, xs: seq<Any>): seq<Event>
    requires AllFine(xs)
    decreases |xs|
  {
    if xs == [] then [] else Said(packet, xs[0]) + AllSaid(PacketAfter(packet, xs[0]), xs[1..])
  }

  // Plain audio comes while the packet type read last says that a header for the decoder is there.
  predicate Misjudged(packet: nat, xs: seq<Any>)
    decreases |xs|
  {
    xs != [] &&
    ((xs[0].PlainSound? && packet == SEQUENCE_HEADER) || Misjudged(PacketAfter(packet, xs[0]), xs[1..]))
  }

  lemma {:induction false} FeedAnys(u: User, p: Parser, xs: seq<Any>, log: seq<Event>)
    requires AllFine(xs) && Allocated(u, xs) && p.phase.TagHead? && p.got == []
    requires Accepting(u, log, AllSaid(p.audio.packet, xs))
    ensures var r := Feed(u, p, AllBytes(xs), log);
      r.log == log + AllSaid(p.audio.packet, xs) && r.result == 0
    decreases |xs|
  {
    hide Feed, TagBytes, Said, Accepting, Fine, PacketAfter;
    if xs == [] {
      assert log + [] == log;
      FeedNone(u, p, log);
    } else {
      var a, rest, packet := xs[0], xs[1..], p.audio.packet;
      AcceptingSplit(u, log, Said(packet, a), AllSaid(PacketAfter(packet, a), rest));
      var q := FeedAny(u, p, a, AllBytes(rest), log);
      FeedAnys(u, q, rest, log + Said(packet, a));
      assert log + Said(packet, a) + AllSaid(q.audio.packet, rest) == log + AllSaid(packet, xs);
    }
  }

  lemma {:induction false} SaidIff(packet: nat, a: Any)
    requires Fine(a)
    ensures |Said(packet, a)| == |Meant(a)|
    ensures Said(packet, a) == Meant(a) <==> !(a.PlainSound? && packet == SEQUENCE_HEADER)
  {
    if a.PlainSound? && packet == SEQUENCE_HEADER {
      assert Said(packet, a)[0].codec % 16 == 1 && Meant(a)[0].codec % 16 == 0;
    }
  }

  lemma {:induction false} SameParts<T>(a: seq<T>, b: seq<T>, c: seq<T>, d: seq<T>)
    requires |a| == |c|
    ensures a + b == c + d <==> a == c && b == d
  {
    if a + b == c + d { assert a == (a + b)[..|a|] && b == (a + b)[|a|..] && c == (c + d)[..|a|] && d == (c + d)[|a|..]; }
  }

  lemma {:induction false} AllSaidIff(packet: nat, xs: seq<Any>)
    requires AllFine(xs)
    ensures AllSaid(packet, xs) == AllMeant(xs) <==> !Misjudged(packet, xs)
    decreases |xs|
  {
    hide Said, Meant, Fine, PacketAfter;
    if xs != [] {
      var a, rest := xs[0], xs[1..];
      SaidIff(packet, a);
      AllSaidIff(PacketAfter(packet, a), rest);
      SameParts(Said(packet, a), AllSaid(PacketAfter(packet, a), rest), Meant(a), AllMeant(rest));
    }
  }

  // A stream of tags of all formats is parsed; each is told of in the codec that it names if and only if no plain
  // audio comes before the first AAC or Opus frame, or right behind the header of such a codec.
  lemma {:induction false} PlainStreamParses(u: User, audio: bool, video: bool, xs: seq<Any>)
    requires AllFine(xs) && Allocated(u, xs) && Accepting(u, [], AllSaid(0, xs))
    ensures var r := Feed(u, FRESH, HeaderData(audio, video) + AllBytes(xs), []);
      && r.result == 0 && r.log == AllSaid(0, xs)
      && (r.log == AllMeant(xs) <==> !Misjudged(0, xs))
  {
    hide Feed, AllSaid, AllMeant, AllBytes, HeaderBytes, Misjudged;
    assert HeaderData(audio, video) + AllBytes(xs) == HeaderBytes(audio, video) + (Be32(0) + AllBytes(xs));
    var p := FeedHeader(u, audio, video, Be32(0) + AllBytes(xs));
    var q := FeedSize(u, p, 0, AllBytes(xs), []);
    FeedAnys(u, q, xs, []);
    AllSaidIff(0, xs);
    assert [] + AllSaid(0, xs) == AllSaid(0, xs);
  }

  // So a stream of one MP3 frame is told of as the header of an Opus stream.
  lemma {:induction false} Mp3ToldAsOpus(payload: bytes)
    requires |payload| + 1 < 0x100_0000
    ensures
      var u, a := User(log => 0, n => true), PlainSound(0, 0x2F, payload);
      && Fine(a) && AllFine([a])
      && Feed(u, FRESH, HeaderData(true, false) + AllBytes([a]), []).log == [Event(AUDIO_OPUS_HEAD, payload, 0, 0, 0)]
      && AllMeant([a]) == [Event(0x20, payload, 0, 0, 0)]
  {
    hide Feed, HeaderBytes;
    var u, a := User(log => 0, n => true), PlainSound(0, 0x2F, payload);
    OneSound(a);
    assert Accepting(u, [], AllSaid(0, [a])) by { assert AllSaid(0, [a])[1..] == []; }
    PlainStreamParses(u, true, false, [a]);
  }

  lemma {:induction false} OneSound(a: Any)
    requires Fine(a) && a.PlainSound?
    ensures AllFine([a]) && forall u: User :: u.alloc(|a.payload|) ==> Allocated(u, [a])
    ensures AllSaid(0, [a]) == Said(0, a) && AllMeant([a]) == Meant(a)
  {
    assert [a][1..] == [];
    assert Said(0, a) + [] == Said(0, a) && Meant(a) + [] == Meant(a);
  }
}
