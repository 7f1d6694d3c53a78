/** The bytes of an FLV file, one by one (annex E of the Adobe FLV specification). */
module FlvLayout {
  import opened Bytes
  import opened FlvParser
  import opened FlvMux

  // A file begins with FLV, version 1, the flags of both kinds of media and its own size, and then a tag size of zero.
  lemma {:induction false} FileHeader(audio: bool, video: bool)
    ensures HeaderData(audio, video) ==
      [0x46, 0x4C, 0x56, 1, if audio then (if video then 5 else 4) else (if video then 1 else 0), 0, 0, 0, 9, 0, 0, 0, 0]
  {
  }

  // The fields of a tag header: type below the filter bit, size, the low 24 bits of the time, its high 8, and the stream.
  lemma {:induction false} TagHeaderFields(tag: Tag)
    requires KnownKind(tag.kind) && tag.timestamp < POW32 && tag.size < 0x100_0000
    ensures tag.kind in {8, 9, 18}
    ensures var b := TagHeaderBytes(tag);
      && |b| == 11 && b[0] as nat == tag.kind + (if tag.filter % 2 == 1 then 32 else 0)
      && Read24(b[1..4]) == tag.size
      && Read24(b[4..7]) + 0x100_0000 * b[7] as nat == tag.timestamp
      && Read24(b[8..11]) == tag.streamId % 0x100_0000
  {
    HeaderParts(tag);
    Be24RoundTrip(tag.size);
    Be24RoundTrip(tag.timestamp % 0x100_0000);
    Be24RoundTrip(tag.streamId % 0x100_0000);
    hide TagHeaderBytes, Be24, Read24;
  }

  lemma {:induction false} HeaderParts(tag: Tag)
    requires KnownKind(tag.kind) && tag.timestamp < POW32 && tag.size < 0x100_0000
    ensures var b := TagHeaderBytes(tag);
      && |b| == 11 && b[0] as nat == tag.kind + tag.filter % 2 * 32 && b[1..4] == Be24(tag.size)
      && b[4..7] == Be24(tag.timestamp % 0x100_0000) && b[7] as nat == tag.timestamp / 0x100_0000
      && b[8..11] == Be24(tag.streamId % 0x100_0000)
  {
    hide Be24;
  }

  // A whole tag: header without filter and of stream 0, body, and the size of both.
  lemma {:induction false} TagFields(kind: nat, body: bytes, ts: nat)
    requires KnownKind(kind) && |body| < 0x100_0000 && ts < POW32
    ensures var d := TagData(kind, body, ts);
      && |d| == 15 + |body| && d[0] as nat == kind && Read24(d[1..4]) == |body|
      && Read24(d[4..7]) + 0x100_0000 * d[7] as nat == ts && d[8] == d[9] == d[10] == 0
      && d[11..11 + |body|] == body && Read32(d[11 + |body|..]) == 11 + |body|
  {
    hide TagHeaderBytes, Read24, Read32, Be32, TagData;
    var tag := Tag(0, kind, |body|, ts, 0);
    var x := TagHeaderBytes(tag);
    TagHeaderFields(tag);
    Be32RoundTrip(11 + |body|);
    NoStream(x);
    TagPieces(kind, body, ts);
    Slices(x, body, Be32(11 + |body|));
  }

  lemma {:induction false} TagPieces(kind: nat, body: bytes, ts: nat)
    requires KnownKind(kind) && |body| < 0x100_0000 && ts < POW32
    ensures TagData(kind, body, ts) == TagHeaderBytes(Tag(0, kind, |body|, ts, 0)) + body + Be32(11 + |body|)
  {
    hide TagHeaderBytes, Be32;
    assert ts % POW32 == ts && (11 + |body|) % POW32 == 11 + |body|;
  }

  lemma {:induction false} Slices(x: bytes, body: bytes, size: bytes)
    requires |x| == 11 && |size| == 4
    ensures var d := x + body + size;
      && |d| == 15 + |body| && d[0] == x[0] && d[1..4] == x[1..4] && d[4..7] == x[4..7] && d[7] == x[7]
      && [d[8], d[9], d[10]] == x[8..11] && d[11..11 + |body|] == body && d[11 + |body|..] == size
  {
  }

  lemma {:induction false} NoStream(x: bytes)
    requires |x| == 11 && Read24(x[8..11]) == 0
    ensures x[8..11] == [0, 0, 0]
  {
  }

  // Audio: AAC and Opus with their packet type, and MP3 and G.711 with rate, sample size and channels.
  lemma {:induction false} AudioHeads(packet: nat)
    requires packet <= 1
    ensures AudioHeadBytes(AudioHead(160, 3, 1, 1, packet)) == [0xAF, packet]
    ensures AudioHeadBytes(AudioHead(208, 3, 1, 1, packet)) == [0xDF, packet]
    ensures AudioHeadBytes(AudioHead(0x20, 3, 1, 1, packet)) == [0x2F]
    ensures AudioHeadBytes(AudioHead(0x20, 2, 1, 0, packet)) == [0x2A]
    ensures AudioHeadBytes(AudioHead(0x70, 0, 1, 0, packet)) == [0x72]
    ensures AudioHeadBytes(AudioHead(0x80, 0, 0, 1, packet)) == [0x81]
  {
  }

  // Video: H.264, H.265 and AV1 with packet type and composition time.
  lemma {:induction false} VideoHeads(packet: nat)
    requires packet <= 2
    ensures VideoHeadBytes(VideoHead(7, 1, packet, 0)) == [0x17, packet, 0, 0, 0]
    ensures VideoHeadBytes(VideoHead(7, 2, packet, 0x01_0203)) == [0x27, packet, 1, 2, 3]
    ensures VideoHeadBytes(VideoHead(12, 2, packet, -1)) == [0x2C, packet, 0xFF, 0xFF, 0xFF]
    ensures VideoHeadBytes(VideoHead(13, 1, packet, -0x80_0000)) == [0x1D, packet, 0x80, 0, 0]
    ensures VideoHeadBytes(VideoHead(2, 1, packet, 0)) == [0x12]
  {
  }

  // What a callback is told, by number: decoder headers have codes of their own.
  lemma {:induction false} Codes(payload: bytes)
    requires |payload| < 0x1_0000
    ensures Told(Script(5, payload)) == [Event(0x300, payload, 5, 5, 0)]
    ensures Told(Sound(5, 160, 0, payload)) == [Event(0x100, payload, 5, 5, 0)]
    ensures Told(Sound(5, 208, 0, payload)) == [Event(0x101, payload, 5, 5, 0)]
    ensures Told(Sound(5, 160, 1, payload)) == [Event(160, payload, 5, 5, 0)]
    ensures Told(Picture(5, 7, 1, 0, 0, payload)) == [Event(0x200, payload, 5, 5, 0)]
    ensures Told(Picture(5, 12, 1, 0, 0, payload)) == [Event(0x201, payload, 5, 5, 0)]
    ensures Told(Picture(5, 13, 1, 0, 0, payload)) == [Event(0x202, payload, 5, 5, 0)]
    ensures Told(Picture(5, 7, 1, 1, 2, payload)) == [Event(7, payload, 7, 5, 1)]
    ensures Told(Picture(5, 7, 2, 1, -5, payload)) == [Event(7, payload, 0, 5, 0)]
    ensures Told(Picture(5, 7, 1, 2, 0, payload)) == []
  {
  }
}
